/** The global payment-settings row (app/api/payment-settings/route.ts):
    read with a default, written by update-or-insert on a fixed id. */
module Settings {
  import opened Common
  import opened Store

  const GlobalSettingsId: Id := "00000000-0000-0000-0000-000000000001"

  /** The reply when no row exists: installments off, at most 12. */
  const DefaultInstallmentsEnabled := false
  const DefaultMaxInstallments := 12

  /** The query layer's "no (or several) rows" code, which GET tolerates. */
  const NoRowsCode := "PGRST116"

  /** The two settings a reply carries. */
  datatype SettingsView = SettingsView(installmentsEnabled: bool, maxInstallments: int)

  /** The outcome of a read: rows, or an error with its code. */
  datatype ReadOutcome = ReadOk | ReadError(code: string)

  predicate IsGlobal(s: PaymentSettings) {
    s.id == GlobalSettingsId
  }

  function View(s: PaymentSettings): SettingsView {
    SettingsView(s.installmentsEnabled, s.maxInstallments)
  }

  /** GET /api/payment-settings (no admin check): the global row through
      `.maybeSingle()`, or the default when there is none. */
  function GetSettings(db: Db, read: ReadOutcome): (r: Response<SettingsView>)
    ensures read.ReadError? && read.code != NoRowsCode ==> r == Fail(500, "Failed to get payment settings")
    ensures read.ReadOk? && Count(db.settings, IsGlobal) == 1 ==>
      r == Ok(View(Single(db.settings, IsGlobal).value))
    ensures (read.ReadOk? && Count(db.settings, IsGlobal) != 1) || read == ReadError(NoRowsCode) ==>
      r == Ok(SettingsView(DefaultInstallmentsEnabled, DefaultMaxInstallments))
  {
    if read.ReadError? && read.code != NoRowsCode then Fail(500, "Failed to get payment settings")
    else
      var found := if read.ReadOk? then Single(db.settings, IsGlobal) else None;
      match found
      case Some(row) => Ok(View(row))
      case None => Ok(SettingsView(DefaultInstallmentsEnabled, DefaultMaxInstallments))
  }

  /** The body of POST. */
  datatype SettingsBody = SettingsBody(installmentsEnabled: bool, maxInstallments: int)

  /** The outcomes of the existence lookup and of the write. */
  datatype SettingsEnv = SettingsEnv(lookupOk: bool, writeOk: bool)

  function Assign(s: PaymentSettings, b: SettingsBody): PaymentSettings {
    s.(installmentsEnabled := b.installmentsEnabled, maxInstallments := b.maxInstallments)
  }

  /** Some row already carries the fixed id (the primary key the insert
      would violate). */
  predicate HasGlobal(rows: seq<PaymentSettings>) {
    exists k :: 0 <= k < |rows| && IsGlobal(rows[k])
  }

  /** The update `.eq('id', GLOBAL_SETTINGS_ID)`: the body lands on every
      row with the fixed id. */
  function AssignGlobal(rows: seq<PaymentSettings>, b: SettingsBody): (r: seq<PaymentSettings>)
    ensures |r| == |rows|
    ensures forall k :: 0 <= k < |rows| ==>
      r[k] == (if IsGlobal(rows[k]) then Assign(rows[k], b) else rows[k])
  {
    seq(|rows|, k requires 0 <= k < |rows| => if IsGlobal(rows[k]) then Assign(rows[k], b) else rows[k])
  }

  /** POST /api/payment-settings. A failed lookup reads as "no row", so the
      route then tries to insert and the key constraint refuses the insert
      when the row is there after all. */
  function SaveSettings(db: Db, isAdmin: bool, b: SettingsBody, env: SettingsEnv)
    : (out: (Response<SettingsView>, Db))
    ensures !isAdmin ==> out == (Unauthorized(), db)
    ensures out.1.(settings := db.settings) == db
    ensures out.0.status != 200 ==> out.1 == db
    ensures isAdmin && out.0.status != 200 ==> out.0 == Fail(500, "Failed to update payment settings")
    ensures out.0.status == 200 <==>
      isAdmin && env.writeOk && ((env.lookupOk && Count(db.settings, IsGlobal) == 1) || !HasGlobal(db.settings))
    ensures out.0.status == 200 ==> out.0 == Ok(SettingsView(b.installmentsEnabled, b.maxInstallments))
    ensures out.0.status == 200 && HasGlobal(db.settings) ==> |out.1.settings| == |db.settings|
    ensures out.0.status == 200 && HasGlobal(db.settings) ==> forall k :: 0 <= k < |db.settings| ==>
      out.1.settings[k] == (if IsGlobal(db.settings[k]) then Assign(db.settings[k], b) else db.settings[k])
    ensures out.0.status == 200 && !HasGlobal(db.settings) ==>
      out.1.settings == db.settings + [PaymentSettings(GlobalSettingsId, b.installmentsEnabled, b.maxInstallments)]
  {
    if !isAdmin then (Unauthorized(), db)
    else if env.lookupOk && Count(db.settings, IsGlobal) == 1 then
      CountPositiveHasWitness(db.settings, IsGlobal);
      if !env.writeOk then (Fail(500, "Failed to update payment settings"), db)
      else
        (Ok(SettingsView(b.installmentsEnabled, b.maxInstallments)), db.(settings := AssignGlobal(db.settings, b)))
    else if HasGlobal(db.settings) || !env.writeOk then (Fail(500, "Failed to update payment settings"), db)
    else
      var row := PaymentSettings(GlobalSettingsId, b.installmentsEnabled, b.maxInstallments);
      (Ok(View(row)), db.(settings := db.settings + [row]))
  }

  /** The table holds at most one row, and that row has the fixed id. */
  predicate AtMostOneRow(rows: seq<PaymentSettings>) {
    |rows| <= 1 && forall k :: 0 <= k < |rows| ==> IsGlobal(rows[k])
  }

  lemma SaveKeepsAtMostOneRow(db: Db, isAdmin: bool, b: SettingsBody, env: SettingsEnv)
    requires AtMostOneRow(db.settings)
    ensures AtMostOneRow(SaveSettings(db, isAdmin, b, env).1.settings)
  {
    var out := SaveSettings(db, isAdmin, b, env);
    if |db.settings| == 1 {
      assert IsGlobal(db.settings[0]);
      if out.0.status == 200 {
        assert IsGlobal(out.1.settings[0]);
      }
    }
  }

  /** A successful POST is what the next successful GET reports. */
  lemma {:induction false} GetAfterSave(db: Db, isAdmin: bool, b: SettingsBody, env: SettingsEnv)
    requires SaveSettings(db, isAdmin, b, env).0.status == 200
    ensures GetSettings(SaveSettings(db, isAdmin, b, env).1, ReadOk) ==
      Ok(SettingsView(b.installmentsEnabled, b.maxInstallments))
  {
    var rows := SaveSettings(db, isAdmin, b, env).1.settings;
    if HasGlobal(db.settings) {
      CountPositiveHasWitness(db.settings, IsGlobal);
      var k :| 0 <= k < |db.settings| && IsGlobal(db.settings[k]);
      CountOnePinned(db.settings, IsGlobal, k);
      SingleMatch(rows, k, IsGlobal);
      OnlyMatchIsSingle(rows, k, IsGlobal);
    } else {
      SingleMatch(rows, |db.settings|, IsGlobal);
      OnlyMatchIsSingle(rows, |db.settings|, IsGlobal);
    }
  }

  /** With the fixed id on exactly one row, at position `k`, a working
      lookup and write take the update path. */
  lemma SaveUpdatesUniqueRow(db: Db, b: SettingsBody, env: SettingsEnv, k: nat)
    requires k < |db.settings| && IsGlobal(db.settings[k])
    requires forall i :: 0 <= i < |db.settings| && i != k ==> !IsGlobal(db.settings[i])
    requires env.lookupOk && env.writeOk
    ensures SaveSettings(db, true, b, env).1 == db.(settings := AssignGlobal(db.settings, b))
  {
    SingleMatch(db.settings, k, IsGlobal);
  }

  /** Updating twice is updating once. */
  lemma AssignGlobalTwice(rows: seq<PaymentSettings>, b: SettingsBody)
    ensures AssignGlobal(AssignGlobal(rows, b), b) == AssignGlobal(rows, b)
  {
  }

  /** Posting the same body twice leaves the store as posting it once. */
  lemma SaveIdempotent(db: Db, isAdmin: bool, b: SettingsBody, env: SettingsEnv)
    ensures var once := SaveSettings(db, isAdmin, b, env).1;
      SaveSettings(once, isAdmin, b, env).1 == once
  {
    var first := SaveSettings(db, isAdmin, b, env);
    if first.0.status == 200 {
      var once := first.1;
      if HasGlobal(db.settings) {
        CountPositiveHasWitness(db.settings, IsGlobal);
        var k :| 0 <= k < |db.settings| && IsGlobal(db.settings[k]);
        CountOnePinned(db.settings, IsGlobal, k);
        SaveUpdatesUniqueRow(db, b, env, k);
        SaveUpdatesUniqueRow(once, b, env, k);
        AssignGlobalTwice(db.settings, b);
      } else if env.lookupOk {
        var n := |db.settings|;
        SaveUpdatesUniqueRow(once, b, env, n);
        assert AssignGlobal(once.settings, b) == once.settings;
      } else {
        assert IsGlobal(once.settings[|db.settings|]);
      }
    }
  }
}
