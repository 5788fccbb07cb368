/** The auction countdown (components/auction/countdown-timer.tsx): the
    split of the remaining milliseconds into days, hours, minutes and
    seconds, the two-digit rendering, and the once-only confetti and
    winner-notification flags kept in browser storage. */
module Countdown {
  import opened Common

  const MsPerSecond := 1000
  const MsPerMinute := 60 * MsPerSecond
  const MsPerHour := 60 * MsPerMinute
  const MsPerDay := 24 * MsPerHour

  datatype TimeLeft = TimeLeft(days: int, hours: int, minutes: int, seconds: int)

  const Zero := TimeLeft(0, 0, 0, 0)

  /** `calculateTimeLeft`'s arithmetic for `difference` milliseconds; on a
      positive difference every `Math.floor` of a non-negative quotient is
      integer division. */
  function Decompose(difference: int): (t: TimeLeft)
    ensures difference <= 0 ==> t == Zero
    ensures difference > 0 ==> 0 <= t.hours < 24 && 0 <= t.minutes < 60 && 0 <= t.seconds < 60 && t.days >= 0
  {
    if difference <= 0 then Zero
    else TimeLeft(difference / MsPerDay, (difference / MsPerHour) % 24,
                  (difference / MsPerMinute) % 60, (difference / MsPerSecond) % 60)
  }

  function TotalSeconds(t: TimeLeft): int {
    t.days * 86400 + t.hours * 3600 + t.minutes * 60 + t.seconds
  }

  /** The four components add back up to the whole seconds remaining. */
  lemma DecomposeAddsUp(difference: int)
    requires difference > 0
    ensures TotalSeconds(Decompose(difference)) == difference / MsPerSecond
  {
    var s := difference / MsPerSecond;
    assert difference / MsPerMinute == s / 60;
    assert difference / MsPerHour == s / 3600;
    assert difference / MsPerDay == s / 86400;
    var t := Decompose(difference);
    assert t.seconds == s % 60;
    assert t.minutes == (s / 60) % 60;
    assert t.hours == (s / 3600) % 24;
    assert s == (s / 60) * 60 + s % 60;
    assert s / 60 == ((s / 60) / 60) * 60 + (s / 60) % 60;
    assert (s / 60) / 60 == s / 3600;
    assert s / 3600 == ((s / 3600) / 24) * 24 + (s / 3600) % 24;
    assert (s / 3600) / 24 == s / 86400;
  }

  /** `String(num).padStart(2, '0')`. */
  function FormatNumber(n: int): (r: string)
    ensures |IntString(n)| >= 2 ==> r == IntString(n)
    ensures |IntString(n)| < 2 ==> r == "0" + IntString(n)
    ensures |r| >= 2
  {
    var s := IntString(n);
    if |s| >= 2 then s else "0" + s
  }

  /** Two-digit rendering keeps the digits and only pads: a single digit
      gets one leading zero, 10 to 99 are unchanged. */
  lemma FormatSmallNumbers(n: nat)
    requires n < 100
    ensures n < 10 ==> FormatNumber(n) == ['0', DigitChar(n)]
    ensures n >= 10 ==> FormatNumber(n) == [DigitChar(n / 10), DigitChar(n % 10)]
  {
    if n >= 10 {
      assert NatString(n) == NatString(n / 10) + [DigitChar(n % 10)];
    }
  }

  // ---------------------------------------------------------------------------
  // Once-only effects

  const NotificationsFlag := "winner_notifications_sent"
  const ConfettiPrefix := "auction_confetti_"

  function ConfettiKey(endTime: string): string {
    ConfettiPrefix + endTime
  }

  /** The component's state across ticks: the keys set in storage, whether
      the auction reads as ended, and how often confetti was started and
      the winner POST was sent. */
  datatype View = View(storage: set<string>, ended: bool, confettiShown: nat, notificationsPosted: nat)

  /** `useState(status === 'ended')`. */
  function Initial(storage: set<string>, status: string): (v: View)
    ensures v.ended <==> status == "ended"
    ensures v.storage == storage && v.confettiShown == 0 && v.notificationsPosted == 0
  {
    View(storage, status == "ended", 0, 0)
  }

  /** One `calculateTimeLeft` call with `difference` milliseconds left. */
  function Tick(v: View, endTime: string, difference: int): (r: (View, TimeLeft))
    ensures r.1 == Decompose(difference)
    ensures difference > 0 ==> r.0 == v
    ensures difference <= 0 ==> r.0.ended && ConfettiKey(endTime) in r.0.storage
    ensures r.0.confettiShown == v.confettiShown + (if difference <= 0 && ConfettiKey(endTime) !in v.storage then 1 else 0)
    ensures r.0.notificationsPosted == v.notificationsPosted +
      (if difference <= 0 && ConfettiKey(endTime) !in v.storage && NotificationsFlag !in v.storage then 1 else 0)
    ensures r.0.notificationsPosted > v.notificationsPosted ==> NotificationsFlag in r.0.storage
    ensures v.storage <= r.0.storage
  {
    if difference > 0 then (v, Decompose(difference))
    else
      var key := ConfettiKey(endTime);
      var v1 := v.(ended := true);
      if key in v.storage then (v1, Zero)
      else
        var post := NotificationsFlag !in v.storage;
        var v2 := v1.(storage := v.storage + {key} + {NotificationsFlag},
                      confettiShown := v.confettiShown + 1,
                      notificationsPosted := v.notificationsPosted + (if post then 1 else 0));
        (v2, Zero)
  }

  /** Ticks with the given differences, in order. */
  function Run(v: View, endTime: string, differences: seq<int>): (r: View)
    decreases |differences|
  {
    if |differences| == 0 then v
    else Run(Tick(v, endTime, differences[0]).0, endTime, differences[1..])
  }

  lemma {:induction false} RunKeepsStorage(v: View, endTime: string, differences: seq<int>)
    ensures v.storage <= Run(v, endTime, differences).storage
    ensures Run(v, endTime, differences).confettiShown >= v.confettiShown
    ensures Run(v, endTime, differences).notificationsPosted >= v.notificationsPosted
    decreases |differences|
  {
    if |differences| > 0 {
      RunKeepsStorage(Tick(v, endTime, differences[0]).0, endTime, differences[1..]);
    }
  }

  /** However many ticks run, confetti starts at most once for an end time,
      and never when its key was already stored. */
  lemma {:induction false} ConfettiAtMostOnce(v: View, endTime: string, differences: seq<int>)
    ensures Run(v, endTime, differences).confettiShown <= v.confettiShown + 1
    ensures ConfettiKey(endTime) in v.storage ==> Run(v, endTime, differences).confettiShown == v.confettiShown
    decreases |differences|
  {
    if |differences| > 0 {
      var next := Tick(v, endTime, differences[0]).0;
      ConfettiAtMostOnce(next, endTime, differences[1..]);
      if next.confettiShown > v.confettiShown {
        assert ConfettiKey(endTime) in next.storage;
      }
    }
  }

  /** The winner POST goes out at most once, never while the flag is
      stored, and only on a tick that also starts the confetti. */
  lemma {:induction false} NotificationAtMostOnce(v: View, endTime: string, differences: seq<int>)
    ensures Run(v, endTime, differences).notificationsPosted <= v.notificationsPosted + 1
    ensures NotificationsFlag in v.storage ==>
      Run(v, endTime, differences).notificationsPosted == v.notificationsPosted
    ensures Run(v, endTime, differences).notificationsPosted - v.notificationsPosted <=
      Run(v, endTime, differences).confettiShown - v.confettiShown
    decreases |differences|
  {
    if |differences| > 0 {
      var next := Tick(v, endTime, differences[0]).0;
      NotificationAtMostOnce(next, endTime, differences[1..]);
      RunKeepsStorage(next, endTime, differences[1..]);
      ConfettiAtMostOnce(next, endTime, differences[1..]);
      if next.notificationsPosted > v.notificationsPosted {
        assert NotificationsFlag in next.storage;
      }
    }
  }
}
