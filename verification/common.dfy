/** Shared vocabulary: optional values, JavaScript-style string helpers,
    sums and order-preserving list operations used by every other module. */
module Common {

  /** Money is held in integer cents; a source amount of one dollar is 100. */
  const CentsPerDollar := 100

  /** A value that may be absent (`undefined` / `null` in the source). */
  datatype Option<+T> = None | Some(value: T) {
    function GetOr(default: T): T {
      match this
      case Some(v) => v
      case None => default
    }
  }

  /** JavaScript truthiness of an optional string: absent or empty is falsy. */
  predicate Truthy(s: Option<string>) {
    s.Some? && |s.value| > 0
  }

  /** `a || b` on an optional number: absent or zero falls back to `b`. */
  function OrDefault(x: Option<int>, default: int): (r: int)
    ensures x.Some? && x.value != 0 ==> r == x.value
    ensures (x.None? || x.value == 0) ==> r == default
  {
    if x.Some? && x.value != 0 then x.value else default
  }

  /** `s || null` on an optional string: the empty string becomes null. */
  function EmptyToNull(s: Option<string>): (r: Option<string>)
    ensures r.Some? <==> Truthy(s)
    ensures r.Some? ==> r == s
  {
    if Truthy(s) then s else None
  }

  // ---------------------------------------------------------------------------
  // Strings

  /** `needle` occurs in `hay` as a contiguous block (`String.includes`). */
  predicate Contains(hay: string, needle: string) {
    exists i :: 0 <= i <= |hay| - |needle| && OccursAt(hay, needle, i)
  }

  predicate OccursAt(hay: string, needle: string, i: int) {
    0 <= i <= |hay| - |needle| && hay[i..i + |needle|] == needle
  }

  predicate StartsWith(s: string, prefix: string) {
    |prefix| <= |s| && s[..|prefix|] == prefix
  }

  lemma EmptyIsContained(hay: string)
    ensures Contains(hay, "")
  {
    assert OccursAt(hay, "", 0);
  }

  /** ASCII case folding (the model's stand-in for `toLowerCase`). */
  function LowerChar(c: char): char {
    if 'A' <= c <= 'Z' then (c as int + 32) as char else c
  }

  function Lower(s: string): (r: string)
    ensures |r| == |s|
    ensures forall i :: 0 <= i < |s| ==> r[i] == LowerChar(s[i])
  {
    seq(|s|, i requires 0 <= i < |s| => LowerChar(s[i]))
  }

  /** Case-insensitive `includes`, as the search boxes compute it. */
  predicate ContainsIgnoreCase(hay: string, needle: string) {
    Contains(Lower(hay), Lower(needle))
  }

  /** The characters `String.prototype.trim` removes: ECMAScript WhiteSpace
      (tab, vertical tab, form feed, space, no-break space, BOM and the Zs
      category) and LineTerminator. */
  predicate IsJsSpace(c: char) {
    c == '\t' || c == '\n' || c == '\U{000B}' || c == '\U{000C}' || c == '\r' ||
    c == ' ' || c == '\U{00A0}' || c == '\U{1680}' ||
    ('\U{2000}' <= c <= '\U{200A}') ||
    c == '\U{2028}' || c == '\U{2029}' || c == '\U{202F}' || c == '\U{205F}' ||
    c == '\U{3000}' || c == '\U{FEFF}'
  }

  function TrimStart(s: string): (r: string)
    ensures |r| <= |s| && r == s[|s| - |r|..]
    ensures |r| > 0 ==> !IsJsSpace(r[0])
    ensures forall i :: 0 <= i < |s| - |r| ==> IsJsSpace(s[i])
  {
    if |s| > 0 && IsJsSpace(s[0]) then TrimStart(s[1..]) else s
  }

  function TrimEnd(s: string): (r: string)
    ensures |r| <= |s| && r == s[..|r|]
    ensures |r| > 0 ==> !IsJsSpace(r[|r| - 1])
    ensures forall i :: |r| <= i < |s| ==> IsJsSpace(s[i])
  {
    if |s| > 0 && IsJsSpace(s[|s| - 1]) then TrimEnd(s[..|s| - 1]) else s
  }

  /** `String.prototype.trim`. */
  function Trim(s: string): (r: string)
    ensures |r| <= |s|
    ensures |r| > 0 ==> !IsJsSpace(r[0]) && !IsJsSpace(r[|r| - 1])
  {
    TrimEnd(TrimStart(s))
  }

  /** A string that trims to nothing is made of white space only. */
  lemma {:induction false} TrimEmptyIffBlank(s: string)
    ensures Trim(s) == "" <==> forall i :: 0 <= i < |s| ==> IsJsSpace(s[i])
  {
    if |s| > 0 && IsJsSpace(s[0]) {
      TrimEmptyIffBlank(s[1..]);
      assert forall i :: 1 <= i < |s| ==> s[i] == s[1..][i - 1];
    } else if |s| > 0 {
      assert TrimStart(s) == s;
      assert |TrimEnd(s)| > 0;
    }
  }

  /** `Array.prototype.join(sep)`. */
  function Join(parts: seq<string>, sep: string): (r: string)
    ensures |parts| == 0 ==> r == ""
    ensures |parts| == 1 ==> r == parts[0]
  {
    if |parts| == 0 then ""
    else if |parts| == 1 then parts[0]
    else parts[0] + sep + Join(parts[1..], sep)
  }

  /** `String.prototype.split(sep)` for a one-character separator. */
  function Split(s: string, sep: char): (r: seq<string>)
    ensures |r| >= 1
    ensures forall k :: 0 <= k < |r| ==> sep !in r[k]
    decreases |s|
  {
    if sep !in s then [s]
    else
      var i := IndexOf(s, sep);
      [s[..i]] + Split(s[i + 1..], sep)
  }

  /** Position of the first occurrence of `c` in `s`. */
  function IndexOf(s: string, c: char): (i: nat)
    requires c in s
    ensures i < |s| && s[i] == c && c !in s[..i]
  {
    if s[0] == c then 0 else 1 + IndexOf(s[1..], c)
  }

  /** Splitting a join on a separator that occurs in no part recovers the
      parts; the empty list is excluded because `[].join(",")` is `""`,
      which splits to `[""]`. */
  lemma {:induction false} SplitJoin(parts: seq<string>, sep: char)
    requires |parts| >= 1
    requires forall k :: 0 <= k < |parts| ==> sep !in parts[k]
    ensures Split(Join(parts, [sep]), sep) == parts
  {
    if |parts| == 1 {
    } else {
      var rest := Join(parts[1..], [sep]);
      var s := parts[0] + [sep] + rest;
      assert Join(parts, [sep]) == s;
      assert s[|parts[0]|] == sep;
      assert s[..|parts[0]|] == parts[0];
      assert sep !in s[..|parts[0]|];
      assert IndexOf(s, sep) == |parts[0]| by {
        IndexOfPrefix(parts[0], [sep] + rest, sep);
        assert s == parts[0] + ([sep] + rest);
      }
      assert s[|parts[0]| + 1..] == rest;
      SplitJoin(parts[1..], sep);
    }
  }

  /** A character that is in no part and not in the separator is not in
      the join. */
  lemma {:induction false} JoinAvoids(parts: seq<string>, sep: string, c: char)
    requires c !in sep
    requires forall k :: 0 <= k < |parts| ==> c !in parts[k]
    ensures c !in Join(parts, sep)
  {
    if |parts| > 1 {
      JoinAvoids(parts[1..], sep, c);
    }
  }

  /** With an empty separator, joining is concatenation. */
  lemma {:induction false} ConcatAppend(parts: seq<string>, x: string)
    ensures Join(parts + [x], "") == Join(parts, "") + x
  {
    if |parts| == 0 {
      assert parts + [x] == [x];
    } else if |parts| == 1 {
      assert (parts + [x])[1..] == [x];
    } else {
      assert (parts + [x])[1..] == parts[1..] + [x];
      ConcatAppend(parts[1..], x);
    }
  }

  lemma {:induction false} IndexOfPrefix(a: string, b: string, c: char)
    requires c !in a && |b| > 0 && b[0] == c
    ensures c in a + b && IndexOf(a + b, c) == |a|
  {
    assert (a + b)[|a|] == c;
    if |a| == 0 {
      assert a + b == b;
    } else {
      assert (a + b)[1..] == a[1..] + b;
      IndexOfPrefix(a[1..], b, c);
    }
  }

  // ---------------------------------------------------------------------------
  // Numbers rendered as text

  function DigitChar(d: int): char
    requires 0 <= d < 10
  {
    "0123456789"[d]
  }

  /** Decimal rendering of a natural number (`String(n)`). */
  function NatString(n: nat): (r: string)
    ensures |r| >= 1
    ensures forall i :: 0 <= i < |r| ==> '0' <= r[i] <= '9'
  {
    if n < 10 then [DigitChar(n)] else NatString(n / 10) + [DigitChar(n % 10)]
  }

  /** `String(n)` for an integer. */
  function IntString(n: int): (r: string)
    ensures |r| >= 1
  {
    if n < 0 then "-" + NatString(-n) else NatString(n)
  }

  /** The JavaScript text of a dollar amount held as integer cents:
      `String(cents / 100)`, so 2500 is "25", 2550 is "25.5", 2505 is "25.05". */
  function DollarString(cents: int): (r: string)
    ensures |r| >= 1
    ensures ',' !in r && '"' !in r && '\n' !in r
  {
    var sign := if cents < 0 then "-" else "";
    var m := if cents < 0 then -cents else cents;
    var whole := NatString(m / 100);
    var frac := m % 100;
    NatStringHasNoPunctuation(m / 100);
    var text :=
      if frac == 0 then whole
      else if frac % 10 == 0 then whole + "." + [DigitChar(frac / 10)]
      else whole + "." + [DigitChar(frac / 10), DigitChar(frac % 10)];
    sign + text
  }

  lemma NatStringHasNoPunctuation(n: nat)
    ensures ',' !in NatString(n) && '"' !in NatString(n) && '\n' !in NatString(n)
  {
    var r := NatString(n);
    assert forall i :: 0 <= i < |r| ==> '0' <= r[i] <= '9';
  }

  // ---------------------------------------------------------------------------
  // Sums and list operations

  /** Sum of `f` over a sequence, left to right (`reduce` with `+`, start 0). */
  function SumOf<T>(s: seq<T>, f: T -> int): int {
    if |s| == 0 then 0 else SumOf(s[..|s| - 1], f) + f(s[|s| - 1])
  }

  lemma {:induction false} SumOfAppend<T>(a: seq<T>, b: seq<T>, f: T -> int)
    ensures SumOf(a + b, f) == SumOf(a, f) + SumOf(b, f)
    decreases |b|
  {
    if |b| == 0 {
      assert a + b == a;
    } else {
      assert (a + b)[..|a + b| - 1] == a + b[..|b| - 1];
      SumOfAppend(a, b[..|b| - 1], f);
    }
  }

  lemma {:induction false} SumOfNonNegative<T>(s: seq<T>, f: T -> int)
    requires forall k :: 0 <= k < |s| ==> f(s[k]) >= 0
    ensures SumOf(s, f) >= 0
  {
    if |s| > 0 {
      SumOfNonNegative(s[..|s| - 1], f);
    }
  }

  /** `Array.prototype.filter`. */
  function Filter<T>(s: seq<T>, p: T -> bool): (r: seq<T>)
    ensures |r| <= |s|
    ensures forall k :: 0 <= k < |r| ==> p(r[k])
    ensures forall k :: 0 <= k < |r| ==> r[k] in s
    ensures forall k :: 0 <= k < |s| && p(s[k]) ==> s[k] in r
  {
    if |s| == 0 then []
    else (if p(s[0]) then [s[0]] else []) + Filter(s[1..], p)
  }

  lemma {:induction false} FilterAppend<T>(a: seq<T>, b: seq<T>, p: T -> bool)
    ensures Filter(a + b, p) == Filter(a, p) + Filter(b, p)
  {
    if |a| == 0 {
      assert a + b == b;
    } else {
      assert (a + b)[1..] == a[1..] + b;
      FilterAppend(a[1..], b, p);
    }
  }

  lemma {:induction false} FilterAll<T>(s: seq<T>, p: T -> bool)
    requires forall k :: 0 <= k < |s| ==> p(s[k])
    ensures Filter(s, p) == s
  {
    if |s| > 0 {
      FilterAll(s[1..], p);
    }
  }

  /** `r` is obtained from `s` by deleting elements, order kept. */
  predicate Subsequence<T(==)>(r: seq<T>, s: seq<T>) {
    if |r| == 0 then true
    else if |s| == 0 then false
    else if r[0] == s[0] then Subsequence(r[1..], s[1..])
    else Subsequence(r, s[1..])
  }

  lemma {:induction false} FilterIsSubsequence<T>(s: seq<T>, p: T -> bool)
    ensures Subsequence(Filter(s, p), s)
  {
    if |s| > 0 {
      FilterIsSubsequence(s[1..], p);
      if p(s[0]) {
        assert Filter(s, p) == [s[0]] + Filter(s[1..], p);
        assert Filter(s, p)[1..] == Filter(s[1..], p);
      } else {
        assert Filter(s, p) == Filter(s[1..], p);
      }
    }
  }

  /** Number of elements satisfying `p` (`filter(p).length`). */
  function Count<T>(s: seq<T>, p: T -> bool): (n: nat)
    ensures n <= |s|
  {
    |Filter(s, p)|
  }

  /** The count is positive exactly when some element qualifies. */
  lemma CountPositiveHasWitness<T>(s: seq<T>, p: T -> bool)
    ensures Count(s, p) >= 1 <==> exists i :: 0 <= i < |s| && p(s[i])
  {
    if Count(s, p) >= 1 {
      var x := Filter(s, p)[0];
      assert x in s;
    }
  }

  /** A count of at least two means two distinct positions qualify. */
  lemma {:induction false} CountTwoHasPair<T>(s: seq<T>, p: T -> bool)
    requires Count(s, p) >= 2
    ensures exists i, j :: 0 <= i < j < |s| && p(s[i]) && p(s[j])
  {
    assert Filter(s, p) == (if p(s[0]) then [s[0]] else []) + Filter(s[1..], p);
    if p(s[0]) {
      CountPositiveHasWitness(s[1..], p);
      var j :| 0 <= j < |s[1..]| && p(s[1..][j]);
      assert p(s[0]) && p(s[j + 1]);
    } else {
      CountTwoHasPair(s[1..], p);
      var i, j :| 0 <= i < j < |s[1..]| && p(s[1..][i]) && p(s[1..][j]);
      assert p(s[i + 1]) && p(s[j + 1]);
    }
  }

  /** Exactly one position of `s` satisfies `p`. */
  lemma {:induction false} SingleMatch<T>(s: seq<T>, k: nat, p: T -> bool)
    requires k < |s| && p(s[k])
    requires forall i :: 0 <= i < |s| && i != k ==> !p(s[i])
    ensures Filter(s, p) == [s[k]]
    ensures Count(s, p) == 1
  {
    if k == 0 {
      NoneMatch(s[1..], p);
      assert Filter(s, p) == [s[0]] + Filter(s[1..], p);
    } else {
      assert !p(s[0]);
      assert Filter(s, p) == Filter(s[1..], p);
      SingleMatch(s[1..], k - 1, p);
    }
  }

  /** No position satisfies `p`. */
  lemma {:induction false} NoneMatch<T>(s: seq<T>, p: T -> bool)
    requires forall i :: 0 <= i < |s| ==> !p(s[i])
    ensures Filter(s, p) == []
  {
    if |s| > 0 {
      NoneMatch(s[1..], p);
    }
  }

  /** `.single()` on the rows a filter selects: the row when exactly one
      qualifies, and nothing otherwise (the query layer reports zero or
      several rows as an error, which the callers read as "no row"). */
  function Single<T>(s: seq<T>, p: T -> bool): (r: Option<T>)
    ensures r.Some? <==> Count(s, p) == 1
    ensures r.Some? ==> r.value in s && p(r.value)
  {
    if Count(s, p) == 1 then Some(Filter(s, p)[0]) else None
  }

  /** When exactly one element matches, `Single` returns the one at a
      matching position. */
  lemma {:induction false} OnlyMatchIsSingle<T>(s: seq<T>, k: nat, p: T -> bool)
    requires k < |s| && p(s[k]) && Count(s, p) == 1
    ensures Single(s, p) == Some(s[k])
  {
    var f := Filter(s, p);
    assert s[k] in f;
    var j :| 0 <= j < |f| && f[j] == s[k];
    assert j == 0;
  }

  /** Two qualifying positions make a count of at least two. */
  lemma {:induction false} PairCountsTwo<T>(s: seq<T>, p: T -> bool, i: nat, j: nat)
    requires i < j < |s| && p(s[i]) && p(s[j])
    ensures Count(s, p) >= 2
  {
    assert Filter(s, p) == (if p(s[0]) then [s[0]] else []) + Filter(s[1..], p);
    if i == 0 {
      assert s[1..][j - 1] == s[j];
      CountPositiveHasWitness(s[1..], p);
    } else {
      PairCountsTwo(s[1..], p, i - 1, j - 1);
    }
  }

  /** With a count of one, the qualifying position is the only one. */
  lemma CountOnePinned<T>(s: seq<T>, p: T -> bool, k: nat)
    requires k < |s| && p(s[k]) && Count(s, p) == 1
    ensures forall i :: 0 <= i < |s| && i != k ==> !p(s[i])
  {
    forall i | 0 <= i < |s| && i != k
      ensures !p(s[i])
    {
      if p(s[i]) {
        if i < k { PairCountsTwo(s, p, i, k); } else { PairCountsTwo(s, p, k, i); }
      }
    }
  }

  /** No element occurs twice. */
  predicate Distinct<T(==)>(s: seq<T>) {
    forall i, j :: 0 <= i < j < |s| ==> s[i] != s[j]
  }

  // ---------------------------------------------------------------------------
  // Stable sorting by an integer key

  predicate SortedOn<T>(s: seq<T>, key: T -> int) {
    forall i, j :: 0 <= i < j < |s| ==> key(s[i]) <= key(s[j])
  }

  function InsertOn<T>(x: T, s: seq<T>, key: T -> int): (r: seq<T>)
    requires SortedOn(s, key)
    ensures SortedOn(r, key)
    ensures |r| == |s| + 1
    ensures r[0] == x || (|s| > 0 && r[0] == s[0])
    ensures multiset(r) == multiset(s) + multiset{x}
  {
    if |s| == 0 then [x]
    else if key(x) < key(s[0]) then [x] + s
    else
      var tail := InsertOn(x, s[1..], key);
      assert s == [s[0]] + s[1..];
      [s[0]] + tail
  }

  /** Stable ascending sort on `key` (the engine's `Array.prototype.sort`
      with comparator `key(a) - key(b)`; elements with equal keys keep
      their order). */
  function SortOn<T>(s: seq<T>, key: T -> int): (r: seq<T>)
    ensures SortedOn(r, key)
    ensures multiset(r) == multiset(s)
    ensures |r| == |s|
  {
    if |s| == 0 then []
    else
      var rest := SortOn(s[..|s| - 1], key);
      assert s == s[..|s| - 1] + [s[|s| - 1]];
      InsertOn(s[|s| - 1], rest, key)
  }

  /** The elements whose key is `v`. */
  function KeyIs<T>(key: T -> int, v: int): T -> bool {
    (x: T) => key(x) == v
  }

  lemma FilterCons<T>(a: T, t: seq<T>, p: T -> bool)
    ensures Filter([a] + t, p) == (if p(a) then [a] else []) + Filter(t, p)
  {
    assert ([a] + t)[1..] == t;
  }

  /** Inserting `x` into a sorted sequence puts it after every element
      with the same key. */
  lemma {:induction false} InsertOnAfterEqualKeys<T>(x: T, s: seq<T>, key: T -> int, v: int)
    requires SortedOn(s, key)
    ensures Filter(InsertOn(x, s, key), KeyIs(key, v)) ==
      Filter(s, KeyIs(key, v)) + (if key(x) == v then [x] else [])
  {
    var p := KeyIs(key, v);
    if |s| == 0 {
      assert InsertOn(x, s, key) == [x] + s;
      FilterCons(x, s, p);
    } else if key(x) < key(s[0]) {
      assert InsertOn(x, s, key) == [x] + s;
      InsertInFront(x, s, key, v);
    } else {
      var tail := InsertOn(x, s[1..], key);
      assert InsertOn(x, s, key) == [s[0]] + tail;
      assert SortedOn(s[1..], key);
      InsertOnAfterEqualKeys(x, s[1..], key, v);
      InsertBehind(s, tail, p, if key(x) == v then [x] else []);
    }
  }

  /** Keeping the head in front of a tail into which `x` was inserted. */
  lemma InsertBehind<T>(s: seq<T>, tail: seq<T>, p: T -> bool, y: seq<T>)
    requires |s| > 0
    requires Filter(tail, p) == Filter(s[1..], p) + y
    ensures Filter([s[0]] + tail, p) == Filter(s, p) + y
  {
    var h := [s[0]];
    calc {
      Filter(h + tail, p);
      == { FilterAppend(h, tail, p); }
      Filter(h, p) + (Filter(s[1..], p) + y);
      == { AppendAssoc(Filter(h, p), Filter(s[1..], p), y); }
      (Filter(h, p) + Filter(s[1..], p)) + y;
      == { FilterAppend(h, s[1..], p); assert h + s[1..] == s; }
      Filter(s, p) + y;
    }
  }

  lemma AppendAssoc<T>(a: seq<T>, b: seq<T>, c: seq<T>)
    ensures a + (b + c) == (a + b) + c
  {
  }

  /** An element placed before a sorted sequence whose keys all exceed
      its own. */
  lemma InsertInFront<T>(x: T, s: seq<T>, key: T -> int, v: int)
    requires SortedOn(s, key) && |s| > 0 && key(x) < key(s[0])
    ensures Filter([x] + s, KeyIs(key, v)) == Filter(s, KeyIs(key, v)) + (if key(x) == v then [x] else [])
  {
    var p := KeyIs(key, v);
    FilterCons(x, s, p);
    if key(x) == v {
      forall k | 0 <= k < |s|
        ensures !p(s[k])
      {
        assert key(s[0]) <= key(s[k]);
      }
      NoneMatch(s, p);
    }
  }

  /** The sort is stable: for each key, the elements carrying it appear
      in their input order. */
  lemma {:induction false} SortOnStable<T>(s: seq<T>, key: T -> int, v: int)
    ensures Filter(SortOn(s, key), KeyIs(key, v)) == Filter(s, KeyIs(key, v))
  {
    if |s| > 0 {
      var init := s[..|s| - 1];
      var x := s[|s| - 1];
      var rest := SortOn(init, key);
      assert SortOn(s, key) == InsertOn(x, rest, key);
      SortOnStable(init, key, v);
      InsertOnAfterEqualKeys(x, rest, key, v);
      assert s == init + [x];
      LastFiltered(init, x, KeyIs(key, v));
    }
  }

  lemma LastFiltered<T>(init: seq<T>, x: T, p: T -> bool)
    ensures Filter(init + [x], p) == Filter(init, p) + (if p(x) then [x] else [])
  {
    FilterAppend(init, [x], p);
    FilterCons(x, [], p);
    assert [x] == [x] + [];
  }

  /** Lexicographic order on strings by code point. */
  predicate StringLe(a: string, b: string) {
    if |a| == 0 then true
    else if |b| == 0 then false
    else if a[0] != b[0] then a[0] < b[0]
    else StringLe(a[1..], b[1..])
  }
}
