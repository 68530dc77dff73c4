/**
  The schema migration run at every start (`migrate` in the store).

  Each statement commits on its own, except the rebuild of `upstream_accounts`, which is
  one transaction; so a crash leaves the effect of some prefix of the script.  The schema
  statements must succeed, the column additions and the index drop may fail unnoticed.
  What a database is to become is described by `Target`, without running the script.
*/
module Migration {
  import opened Wrappers

  datatype Value = Null | Text(text: string) | Number(number: int)

  datatype Column =
    | Id | PublicKey | KeyType | Contact | Status | CreatedAt | UpdatedAt | AccountId | AccountUrl | PrivateKey
    | UpstreamId | UpstreamSlot | UpstreamOrderUrl | Identifiers | Profile | RequireCsrKeyType
    | GatewayId | ResourceType | OrderId | UpstreamUrl | CertFingerprint | Nonce | ExpiresAt

  type Row = map<Column, Value>

  /** A table: its columns, and its rows in the order of their row numbers. */
  datatype Table = Table(columns: set<Column>, rows: seq<Row>)

  /** The tables beside `upstream_accounts`. */
  datatype TableName = GatewayAccounts | AccountsByAccount | Orders | ResourceMap | Nonces

  /** The indexes, all on the resource map: URL-unique, unique per order, and plain. */
  datatype Index = LegacyUrl | OrderUrl | UrlLookup

  /** A row of `upstream_accounts`, before and after the slot column. */
  datatype Account = Account(upstream: string, slot: int, url: string, key: string, created: string)
  datatype OldAccount = OldAccount(upstream: string, url: string, key: string, created: string)
  datatype Accounts =
    | Old(oldRows: seq<OldAccount>)  // primary key upstream_id
    | New(newRows: seq<Account>)     // primary key (upstream_id, slot)

  datatype Database = Database(tables: map<TableName, Table>, upstreamAccounts: Option<Accounts>, indexes: set<Index>)

  datatype Step =
    | CreateTable(name: TableName)
    | CreateAccounts
    | CreateIndex(index: Index)
    | AddColumn(name: TableName, column: Column, default: Value)
    | DropIndex(index: Index)
    | RebuildAccounts
  {
    /** Does `migrate` return the error of this statement? */
    predicate Required() {
      !AddColumn? && !DropIndex?
    }
  }

  /** The columns the current schema gives a table. */
  function Columns(name: TableName): set<Column> {
    match name
    case GatewayAccounts => {Id, PublicKey, KeyType, Contact, Status, CreatedAt}
    case AccountsByAccount => {UpstreamId, AccountId, AccountUrl, PrivateKey, CreatedAt}
    case Orders => {Id, AccountId, UpstreamId, UpstreamSlot, UpstreamOrderUrl, Status, Identifiers, Profile,
                    RequireCsrKeyType, CreatedAt, UpdatedAt}
    case ResourceMap => {GatewayId, ResourceType, OrderId, UpstreamUrl, CertFingerprint}
    case Nonces => {Nonce, ExpiresAt}
  }

  const SCRIPT: seq<Step> := [
    CreateTable(GatewayAccounts),
    CreateAccounts,
    CreateTable(AccountsByAccount),
    CreateTable(Orders),
    CreateTable(ResourceMap),
    CreateIndex(OrderUrl),
    CreateIndex(UrlLookup),
    CreateTable(Nonces),
    AddColumn(ResourceMap, CertFingerprint, Null),
    AddColumn(Orders, UpstreamSlot, Number(0)),
    AddColumn(Orders, RequireCsrKeyType, Text("")),
    DropIndex(LegacyUrl),
    RebuildAccounts]

  // ---------- the statements ----------

  function Extended(t: Table, column: Column, default: Value): Table {
    if column in t.columns then t
    else Table(t.columns + {column}, seq(|t.rows|, i requires 0 <= i < |t.rows| => t.rows[i][column := default]))
  }

  function Cell(r: Row, column: Column): Value {
    if column in r then r[column] else Null
  }

  predicate PairsDistinct(rows: seq<Row>) {
    forall i, j :: 0 <= i < j < |rows| ==>
      Cell(rows[i], OrderId) != Cell(rows[j], OrderId) || Cell(rows[i], UpstreamUrl) != Cell(rows[j], UpstreamUrl)
  }

  /** The new unique index lets a URL occur under several orders, the legacy one does not; neither lets a pair recur. */
  lemma IndexesDiffer(rows: seq<Row>, i: nat, j: nat)
    requires i < j < |rows| && Cell(rows[i], UpstreamUrl) == Cell(rows[j], UpstreamUrl)
    ensures !UrlsDistinct(rows)
    ensures Cell(rows[i], OrderId) == Cell(rows[j], OrderId) ==> !PairsDistinct(rows)
    ensures |rows| == 2 && Cell(rows[i], OrderId) != Cell(rows[j], OrderId) ==> PairsDistinct(rows)
  {
  }

  predicate UrlsDistinct(rows: seq<Row>) {
    forall i, j :: 0 <= i < j < |rows| ==> Cell(rows[i], UpstreamUrl) != Cell(rows[j], UpstreamUrl)
  }

  predicate UpstreamsDistinct(rows: seq<OldAccount>) {
    forall i, j :: 0 <= i < j < |rows| ==> rows[i].upstream != rows[j].upstream
  }

  predicate SlotsDistinct(rows: seq<Account>) {
    forall i, j :: 0 <= i < j < |rows| ==> rows[i].upstream != rows[j].upstream || rows[i].slot != rows[j].slot
  }

  function InsertOrIgnore(rows: seq<Account>, a: Account): seq<Account> {
    if exists i :: 0 <= i < |rows| && rows[i].upstream == a.upstream && rows[i].slot == a.slot
    then rows else rows + [a]
  }

  /** What the copying statement selects: every row, with slot 0. */
  function Selected(t: Accounts): seq<Account> {
    match t
    case Old(rows) => seq(|rows|, i requires 0 <= i < |rows| =>
      Account(rows[i].upstream, 0, rows[i].url, rows[i].key, rows[i].created))
    case New(rows) => seq(|rows|, i requires 0 <= i < |rows| => rows[i].(slot := 0))
  }

  function Inserted(rows: seq<Account>): seq<Account> {
    if rows == [] then [] else InsertOrIgnore(Inserted(rows[..|rows|-1]), rows[|rows|-1])
  }

  /** The transaction: rename the table away, create the new one, copy, drop. */
  function Rebuilt(t: Accounts): Accounts {
    New(Inserted(Selected(t)))
  }

  /** One statement; `None` is an error of the statement itself. */
  function Exec(d: Database, step: Step, probeOk: bool): Option<Database> {
    match step
    case CreateTable(name) =>
      Some(if name in d.tables then d else d.(tables := d.tables[name := Table(Columns(name), [])]))
    case CreateAccounts =>
      Some(if d.upstreamAccounts.Some? then d else d.(upstreamAccounts := Some(New([]))))
    case CreateIndex(index) =>
      if index in d.indexes then Some(d)
      else if ResourceMap !in d.tables || (index != UrlLookup && !PairsDistinct(d.tables[ResourceMap].rows)) then None
      else Some(d.(indexes := d.indexes + {index}))
    case AddColumn(name, column, default) =>
      if name !in d.tables || column in d.tables[name].columns then None
      else Some(d.(tables := d.tables[name := Extended(d.tables[name], column, default)]))
    case DropIndex(index) => Some(d.(indexes := d.indexes - {index}))
    case RebuildAccounts =>
      // a failed look for the slot column reads as "no slot column"
      if d.upstreamAccounts.None? then None
      else if d.upstreamAccounts.value.New? && probeOk then Some(d)
      else Some(d.(upstreamAccounts := Some(Rebuilt(d.upstreamAccounts.value))))
  }

  /** One statement of an attempt: the database after it, and whether the attempt goes on. */
  ghost function Perform(d: Database, step: Step, probeOk: bool, fate: bool): (Database, bool) {
    var r := if fate then Exec(d, step, probeOk) else None;
    if r.Some? then (r.value, true) else (d, !step.Required())
  }

  /**
    The script from statement `i` on.  Statement `j` meets no trouble outside itself when
    `fates[j]` holds; the process dies at the first statement without a fate.
  */
  ghost function Attempt(d: Database, probeOk: bool, fates: seq<bool>, i: nat): (Database, bool)
    requires i <= |SCRIPT|
    decreases |SCRIPT| - i
  {
    if i == |SCRIPT| then (d, true)
    else if i >= |fates| then (d, false)
    else
      var (d', on) := Perform(d, SCRIPT[i], probeOk, fates[i]);
      if on then Attempt(d', probeOk, fates, i + 1) else (d', false)
  }

  // ---------- what the script is for ----------

  /** The table as found or, if missing, created with the current columns. */
  ghost function Found(d: Database, name: TableName): Table {
    if name in d.tables then d.tables[name] else Table(Columns(name), [])
  }

  ghost function TargetTable(d: Database, name: TableName): Table {
    match name
    case Orders => Extended(Extended(Found(d, Orders), UpstreamSlot, Number(0)), RequireCsrKeyType, Text(""))
    case ResourceMap => Extended(Found(d, ResourceMap), CertFingerprint, Null)
    case _ => Found(d, name)
  }

  ghost function TargetAccounts(d: Database): Accounts {
    match d.upstreamAccounts
    case None => New([])
    case Some(New(rows)) => New(rows)
    case Some(Old(rows)) => New(Selected(Old(rows)))
  }

  ghost function Target(d: Database): Database {
    Database(map name: TableName :: TargetTable(d, name), Some(TargetAccounts(d)), {OrderUrl, UrlLookup})
  }

  ghost predicate TableOk(t: Table) {
    forall i :: 0 <= i < |t.rows| ==> t.rows[i].Keys == t.columns
  }

  ghost predicate AccountsOk(t: Accounts) {
    match t
    case Old(rows) => UpstreamsDistinct(rows)
    case New(rows) => SlotsDistinct(rows)
  }

  ghost predicate ResourcesOk(t: Table, indexes: set<Index>) {
    && {OrderId, UpstreamUrl} <= t.columns
    && (LegacyUrl in indexes ==> UrlsDistinct(t.rows))
    && (OrderUrl in indexes ==> PairsDistinct(t.rows))
  }

  /** What the constraints of any version guarantee of the stored rows. */
  ghost predicate WellFormed(d: Database) {
    && (forall name :: name in d.tables ==> TableOk(d.tables[name]))
    && (d.upstreamAccounts.Some? ==> AccountsOk(d.upstreamAccounts.value))
    && (ResourceMap in d.tables ==> ResourcesOk(d.tables[ResourceMap], d.indexes))
    && (d.indexes != {} ==> ResourceMap in d.tables)
  }

  // ---------- the copy ----------

  lemma InsertFresh(rows: seq<Account>, a: Account)
    requires forall i :: 0 <= i < |rows| ==> rows[i].upstream != a.upstream || rows[i].slot != a.slot
    ensures InsertOrIgnore(rows, a) == rows + [a]
  {
  }

  lemma {:induction false} InsertedKeepsDistinct(rows: seq<Account>)
    requires SlotsDistinct(rows)
    ensures Inserted(rows) == rows
  {
    if rows != [] {
      var before, last := rows[..|rows|-1], rows[|rows|-1];
      assert SlotsDistinct(before);
      InsertedKeepsDistinct(before);
      InsertFresh(before, last);
      assert rows == before + [last];
    }
  }

  lemma {:induction false} InsertedComesFrom(rows: seq<Account>, a: Account)
    requires a in Inserted(rows)
    ensures a in rows
  {
    if rows != [] {
      if a != rows[|rows|-1] {
        InsertedComesFrom(rows[..|rows|-1], a);
      }
    }
  }

  // ---------- every statement, at any time, leaves the target alone ----------

  lemma ExtendedKeepsPairs(t: Table, column: Column, default: Value)
    requires column != OrderId && column != UpstreamUrl
    ensures PairsDistinct(Extended(t, column, default).rows) <==> PairsDistinct(t.rows)
    ensures UrlsDistinct(Extended(t, column, default).rows) <==> UrlsDistinct(t.rows)
  {
    var t' := Extended(t, column, default);
    assert forall i :: 0 <= i < |t.rows| ==>
      Cell(t'.rows[i], OrderId) == Cell(t.rows[i], OrderId) &&
      Cell(t'.rows[i], UpstreamUrl) == Cell(t.rows[i], UpstreamUrl);
  }

  lemma ExtensionsCommute(t: Table, c: Column, x: Value, d: Column, y: Value)
    requires c != d
    ensures Extended(Extended(t, c, x), d, y) == Extended(Extended(t, d, y), c, x)
  {
    var l, r := Extended(Extended(t, c, x), d, y), Extended(Extended(t, d, y), c, x);
    assert l.columns == r.columns;
    assert forall i :: 0 <= i < |t.rows| ==> l.rows[i] == r.rows[i];
  }

  ghost predicate IsAddition(name: TableName, column: Column, default: Value) {
    || (name == ResourceMap && column == CertFingerprint && default == Null)
    || (name == Orders && column == UpstreamSlot && default == Number(0))
    || (name == Orders && column == RequireCsrKeyType && default == Text(""))
  }

  lemma AdditionKeepsTable(d: Database, d': Database, name: TableName, column: Column, default: Value)
    requires name in d.tables && IsAddition(name, column, default)
    requires d'.tables == d.tables[name := Extended(d.tables[name], column, default)]
    ensures TargetTable(d', name) == TargetTable(d, name)
  {
    if column == RequireCsrKeyType {
      ExtensionsCommute(d.tables[name], UpstreamSlot, Number(0), column, default);
    }
  }

  lemma AdditionKeepsForm(t: Table, indexes: set<Index>, column: Column, default: Value)
    requires TableOk(t) && column != OrderId && column != UpstreamUrl
    ensures TableOk(Extended(t, column, default))
    ensures ResourcesOk(t, indexes) ==> ResourcesOk(Extended(t, column, default), indexes)
  {
    ExtendedKeepsPairs(t, column, default);
  }

  lemma RebuildKeepsAccounts(t: Accounts)
    requires AccountsOk(t) && t.Old?
    ensures Rebuilt(t) == New(Selected(t)) && AccountsOk(Rebuilt(t))
  {
    InsertedKeepsDistinct(Selected(t));
  }

  /** The statements of the script. */
  ghost predicate Scripted(step: Step) {
    match step
    case CreateIndex(index) => index != LegacyUrl
    case AddColumn(name, column, default) => IsAddition(name, column, default)
    case DropIndex(index) => index == LegacyUrl
    case _ => true
  }

  lemma StatementKeepsForm(d: Database, step: Step)
    requires WellFormed(d) && Scripted(step) && Exec(d, step, true).Some?
    ensures WellFormed(Exec(d, step, true).value)
  {
    if step.AddColumn? {
      AdditionKeepsForm(d.tables[step.name], d.indexes, step.column, step.default);
    } else if step.RebuildAccounts? && d.upstreamAccounts.value.Old? {
      RebuildKeepsAccounts(d.upstreamAccounts.value);
    }
  }

  lemma StatementKeepsTarget(d: Database, step: Step)
    requires WellFormed(d) && Scripted(step) && Exec(d, step, true).Some?
    ensures Target(Exec(d, step, true).value) == Target(d)
  {
    var d' := Exec(d, step, true).value;
    forall name: TableName ensures TargetTable(d', name) == TargetTable(d, name) {
      if step.AddColumn? && step.name == name {
        AdditionKeepsTable(d, d', name, step.column, step.default);
      }
    }
    if step.RebuildAccounts? && d.upstreamAccounts.value.Old? {
      RebuildKeepsAccounts(d.upstreamAccounts.value);
    }
  }

  // ---------- whole attempts ----------

  lemma ScriptIsScripted(i: nat)
    requires i < |SCRIPT|
    ensures Scripted(SCRIPT[i])
  {
  }

  lemma PerformKeepsTarget(d: Database, i: nat, fate: bool)
    requires WellFormed(d) && i < |SCRIPT|
    ensures var d' := Perform(d, SCRIPT[i], true, fate).0; WellFormed(d') && Target(d') == Target(d)
  {
    ScriptIsScripted(i);
    if Exec(d, SCRIPT[i], true).Some? {
      StatementKeepsForm(d, SCRIPT[i]);
      StatementKeepsTarget(d, SCRIPT[i]);
    }
  }

  lemma {:induction false} ProbedAttemptKeepsTarget(d: Database, fates: seq<bool>, i: nat)
    requires WellFormed(d) && i <= |SCRIPT|
    ensures WellFormed(Attempt(d, true, fates, i).0)
    ensures Target(Attempt(d, true, fates, i).0) == Target(d)
    decreases |SCRIPT| - i
  {
    if i < |SCRIPT| && i < |fates| {
      PerformKeepsTarget(d, i, fates[i]);
      var (d', on) := Perform(d, SCRIPT[i], true, fates[i]);
      if on { ProbedAttemptKeepsTarget(d', fates, i + 1); }
    }
  }

  /** No account has a slot but 0: the accounts are missing, of the old schema, or all at slot 0. */
  ghost predicate SlotZeroOnly(d: Database) {
    d.upstreamAccounts.Some? && d.upstreamAccounts.value.New? ==>
      forall i :: 0 <= i < |d.upstreamAccounts.value.newRows| ==> d.upstreamAccounts.value.newRows[i].slot == 0
  }

  lemma RebuildIsIdle(rows: seq<Account>)
    requires SlotsDistinct(rows) && forall i :: 0 <= i < |rows| ==> rows[i].slot == 0
    ensures Rebuilt(New(rows)) == New(rows)
  {
    assert Selected(New(rows)) == rows;
    InsertedKeepsDistinct(rows);
  }

  lemma StatementIgnoresProbe(d: Database, step: Step, probeOk: bool)
    requires WellFormed(d) && SlotZeroOnly(d)
    ensures Exec(d, step, probeOk) == Exec(d, step, true)
    ensures Exec(d, step, true).Some? ==> SlotZeroOnly(Exec(d, step, true).value)
  {
    if step.RebuildAccounts? && d.upstreamAccounts.Some? {
      match d.upstreamAccounts.value
      case New(rows) => RebuildIsIdle(rows);
      case Old(_) => RebuildKeepsAccounts(d.upstreamAccounts.value);
    }
  }

  lemma PerformIgnoresProbe(d: Database, i: nat, probeOk: bool, fate: bool)
    requires WellFormed(d) && SlotZeroOnly(d) && i < |SCRIPT|
    ensures var p := Perform(d, SCRIPT[i], true, fate);
      Perform(d, SCRIPT[i], probeOk, fate) == p && WellFormed(p.0) && SlotZeroOnly(p.0)
  {
    StatementIgnoresProbe(d, SCRIPT[i], probeOk);
    PerformKeepsTarget(d, i, fate);
  }

  /** With no account at another slot, it makes no difference whether the look for the column succeeds. */
  lemma {:induction false} AttemptIgnoresProbe(d: Database, probeOk: bool, fates: seq<bool>, i: nat)
    requires WellFormed(d) && SlotZeroOnly(d) && i <= |SCRIPT|
    ensures Attempt(d, probeOk, fates, i) == Attempt(d, true, fates, i)
    ensures SlotZeroOnly(Attempt(d, true, fates, i).0)
    decreases |SCRIPT| - i
  {
    if i < |SCRIPT| && i < |fates| {
      PerformIgnoresProbe(d, i, probeOk, fates[i]);
      var (d', on) := Perform(d, SCRIPT[i], true, fates[i]);
      if on { AttemptIgnoresProbe(d', probeOk, fates, i + 1); }
    }
  }

  /** However an attempt ends, the database is still on its way to the same target. */
  lemma AttemptKeepsTarget(d: Database, probeOk: bool, fates: seq<bool>)
    requires WellFormed(d) && (probeOk || SlotZeroOnly(d))
    ensures var d' := Attempt(d, probeOk, fates, 0).0;
      WellFormed(d') && Target(d') == Target(d) && (SlotZeroOnly(d) ==> SlotZeroOnly(d'))
  {
    if SlotZeroOnly(d) { AttemptIgnoresProbe(d, probeOk, fates, 0); }
    ProbedAttemptKeepsTarget(d, fates, 0);
  }

  /** The effect of a statement is there, whoever brought it about. */
  ghost predicate Done(d: Database, step: Step) {
    match step
    case CreateTable(name) => name in d.tables
    case CreateAccounts => d.upstreamAccounts.Some?
    case CreateIndex(index) => index in d.indexes
    case AddColumn(name, column, _) => name in d.tables && column in d.tables[name].columns
    case DropIndex(index) => index !in d.indexes
    case RebuildAccounts => d.upstreamAccounts.Some? && d.upstreamAccounts.value.New?
  }

  ghost predicate DoneBefore(d: Database, i: nat)
    requires i <= |SCRIPT|
  {
    forall j :: 0 <= j < i ==> Done(d, SCRIPT[j])
  }

  lemma DoneStays(d: Database, step: Step, other: Step)
    requires Scripted(step) && Scripted(other) && Done(d, other) && Exec(d, step, true).Some?
    ensures Done(Exec(d, step, true).value, other)
  {
  }

  lemma StatementAdvances(d: Database, i: nat)
    requires i < |SCRIPT| && DoneBefore(d, i) && Exec(d, SCRIPT[i], true).Some?
    ensures DoneBefore(Exec(d, SCRIPT[i], true).value, i + 1)
  {
    ScriptIsScripted(i);
    var d' := Exec(d, SCRIPT[i], true).value;
    forall j | 0 <= j < i + 1 ensures Done(d', SCRIPT[j]) {
      ScriptIsScripted(j);
      if j < i { DoneStays(d, SCRIPT[i], SCRIPT[j]); }
    }
  }

  /** An undisturbed attempt brings every statement about, or stops at the unique index. */
  lemma {:induction false} UndisturbedIsDone(d: Database, fates: seq<bool>, i: nat)
    requires i <= |SCRIPT| == |fates| && (forall j :: 0 <= j < |fates| ==> fates[j]) && DoneBefore(d, i)
    requires i > 5 || PairsDistinct(Found(d, ResourceMap).rows)  // statement 5 makes the unique index
    ensures Attempt(d, true, fates, i).1 && DoneBefore(Attempt(d, true, fates, i).0, |SCRIPT|)
    decreases |SCRIPT| - i
  {
    if i < |SCRIPT| {
      var r := Exec(d, SCRIPT[i], true);
      if i > 1 { assert Done(d, SCRIPT[1]); }
      if i > 3 { assert Done(d, SCRIPT[3]); }
      if i > 4 { assert Done(d, SCRIPT[4]); }
      if r.Some? {
        StatementAdvances(d, i);
        UndisturbedIsDone(r.value, fates, i + 1);
      } else {
        assert Done(d, SCRIPT[i]);
        UndisturbedIsDone(d, fates, i + 1);
      }
    }
  }

  lemma DoneIsTarget(d: Database)
    requires DoneBefore(d, |SCRIPT|)
    ensures Target(d) == d
  {
    forall name: TableName ensures name in d.tables && TargetTable(d, name) == d.tables[name] {
      match name
      case GatewayAccounts => assert Done(d, SCRIPT[0]);
      case AccountsByAccount => assert Done(d, SCRIPT[2]);
      case Orders => assert Done(d, SCRIPT[3]) && Done(d, SCRIPT[9]) && Done(d, SCRIPT[10]);
      case ResourceMap => assert Done(d, SCRIPT[4]) && Done(d, SCRIPT[8]);
      case Nonces => assert Done(d, SCRIPT[7]);
    }
    assert Done(d, SCRIPT[5]) && Done(d, SCRIPT[6]) && Done(d, SCRIPT[11]) && Done(d, SCRIPT[12]);
    forall x: Index ensures x in d.indexes <==> x in {OrderUrl, UrlLookup} {
      match x
      case LegacyUrl =>
      case OrderUrl =>
      case UrlLookup =>
    }
  }

  ghost predicate Undisturbed(fates: seq<bool>) {
    |fates| == |SCRIPT| && forall j :: 0 <= j < |fates| ==> fates[j]
  }

  /** One start: whether its look for the slot column succeeds, and how far its statements get. */
  datatype Try = Try(probeOk: bool, fates: seq<bool>)

  /** The database after any number of attempts, each cut short or disturbed anywhere. */
  ghost function After(d: Database, tries: seq<Try>): Database {
    if tries == [] then d
    else
      var last := tries[|tries|-1];
      Attempt(After(d, tries[..|tries|-1]), last.probeOk, last.fates, 0).0
  }

  ghost predicate ProbesSucceed(tries: seq<Try>) {
    forall t :: t in tries ==> t.probeOk
  }

  lemma {:induction false} AfterKeepsTarget(d: Database, tries: seq<Try>)
    requires WellFormed(d) && (SlotZeroOnly(d) || ProbesSucceed(tries))
    ensures WellFormed(After(d, tries)) && Target(After(d, tries)) == Target(d)
    ensures SlotZeroOnly(d) ==> SlotZeroOnly(After(d, tries))
  {
    if tries != [] {
      var before, last := tries[..|tries|-1], tries[|tries|-1];
      assert last in tries;
      AfterKeepsTarget(d, before);
      AttemptKeepsTarget(After(d, before), last.probeOk, last.fates);
    }
  }

  lemma TargetDecidesPairs(d: Database)
    ensures PairsDistinct(Target(d).tables[ResourceMap].rows) <==> PairsDistinct(Found(d, ResourceMap).rows)
  {
    ExtendedKeepsPairs(Found(d, ResourceMap), CertFingerprint, Null);
  }

  lemma UndisturbedReachesTarget(d: Database, last: Try)
    requires WellFormed(d) && Undisturbed(last.fates) && PairsDistinct(Found(d, ResourceMap).rows)
    requires last.probeOk || SlotZeroOnly(d)
    ensures Attempt(d, last.probeOk, last.fates, 0) == (Target(d), true)
  {
    if SlotZeroOnly(d) { AttemptIgnoresProbe(d, last.probeOk, last.fates, 0); }
    UndisturbedIsDone(d, last.fates, 0);
    ProbedAttemptKeepsTarget(d, last.fates, 0);
    DoneIsTarget(Attempt(d, true, last.fates, 0).0);
  }

  /**
    Crash safety: whatever happened to earlier attempts, one undisturbed attempt succeeds
    and ends in the target of the original database, as if it had been the first.  Unless an
    account has a slot other than 0, failed looks for the slot column do no harm either.
  */
  lemma RerunReachesTarget(d: Database, tries: seq<Try>, last: Try)
    requires WellFormed(d) && Undisturbed(last.fates) && PairsDistinct(Found(d, ResourceMap).rows)
    requires SlotZeroOnly(d) || ProbesSucceed(tries + [last])
    ensures Attempt(After(d, tries), last.probeOk, last.fates, 0) == (Target(d), true) == Attempt(d, last.probeOk, last.fates, 0)
  {
    assert last in tries + [last] && forall t :: t in tries ==> t in tries + [last];
    AfterKeepsTarget(d, tries);
    TargetDecidesPairs(d);
    TargetDecidesPairs(After(d, tries));
    UndisturbedReachesTarget(After(d, tries), last);
    UndisturbedReachesTarget(d, last);
  }

  lemma StatementKeepsOrderIndex(d: Database, i: nat)
    requires i < |SCRIPT| && (i <= 5 || OrderUrl in d.indexes) && Exec(d, SCRIPT[i], true).Some?
    ensures i + 1 <= 5 || OrderUrl in Exec(d, SCRIPT[i], true).value.indexes
  {
    ScriptIsScripted(i);
    assert i == 5 ==> SCRIPT[i] == CreateIndex(OrderUrl);
  }

  lemma OrderIndexIsRequired()
    ensures SCRIPT[5] == CreateIndex(OrderUrl) && SCRIPT[5].Required()
  {
  }

  lemma {:induction false} SuccessHasOrderIndex(d: Database, fates: seq<bool>, i: nat)
    requires i <= |SCRIPT| && (i <= 5 || OrderUrl in d.indexes)
    ensures Attempt(d, true, fates, i).1 ==> OrderUrl in Attempt(d, true, fates, i).0.indexes
    decreases |SCRIPT| - i
  {
    if i < |SCRIPT| && i < |fates| {
      var step := SCRIPT[i];
      OrderIndexIsRequired();
      if fates[i] && Exec(d, step, true).Some? {
        StatementKeepsOrderIndex(d, i);
        SuccessHasOrderIndex(Exec(d, step, true).value, fates, i + 1);
      } else if !step.Required() {
        SuccessHasOrderIndex(d, fates, i + 1);
      }
    }
  }

  /** The new unique index is the only obstacle, and the legacy one guarantees it is none. */
  lemma SucceedsExactly(d: Database, t: Try)
    requires WellFormed(d) && (t.probeOk || SlotZeroOnly(d))
    ensures Attempt(d, t.probeOk, t.fates, 0).1 ==> PairsDistinct(Found(d, ResourceMap).rows)
    ensures Undisturbed(t.fates) ==> (Attempt(d, t.probeOk, t.fates, 0).1 <==> PairsDistinct(Found(d, ResourceMap).rows))
    ensures LegacyUrl in d.indexes ==> PairsDistinct(Found(d, ResourceMap).rows)
  {
    if SlotZeroOnly(d) { AttemptIgnoresProbe(d, t.probeOk, t.fates, 0); }
    if Attempt(d, true, t.fates, 0).1 {
      SuccessHasOrderIndex(d, t.fates, 0);
      ProbedAttemptKeepsTarget(d, t.fates, 0);
      TargetDecidesPairs(d);
      TargetDecidesPairs(Attempt(d, true, t.fates, 0).0);
    }
    if Undisturbed(t.fates) && PairsDistinct(Found(d, ResourceMap).rows) {
      UndisturbedIsDone(d, t.fates, 0);
    }
  }

  lemma {:induction false} AttemptOnDone(d: Database, fates: seq<bool>, i: nat)
    requires i <= |SCRIPT| && DoneBefore(d, |SCRIPT|)
    ensures Attempt(d, true, fates, i).0 == d
    decreases |SCRIPT| - i
  {
    if i < |SCRIPT| {
      assert Done(d, SCRIPT[i]);
      assert SCRIPT[i].DropIndex? ==> d.indexes - {SCRIPT[i].index} == d.indexes;
      AttemptOnDone(d, fates, i + 1);
    }
  }

  lemma TargetIsDone(d: Database)
    ensures DoneBefore(Target(d), |SCRIPT|) && Target(Target(d)) == Target(d)
  {
    assert DoneBefore(Target(d), |SCRIPT|);
    DoneIsTarget(Target(d));
  }

  /** Every later start, however it goes, leaves a migrated database as it is. */
  lemma MigratedIsFixed(d: Database, t: Try)
    requires t.probeOk || (WellFormed(Target(d)) && SlotZeroOnly(Target(d)))
    ensures Attempt(Target(d), t.probeOk, t.fates, 0).0 == Target(d)
  {
    TargetIsDone(d);
    if !t.probeOk { AttemptIgnoresProbe(Target(d), t.probeOk, t.fates, 0); }
    AttemptOnDone(Target(d), t.fates, 0);
  }

  // ---------- what the target keeps ----------

  /** Old cells stay, new columns hold their defaults, and no row comes or goes. */
  lemma RowsKeepTheirCells(d: Database, name: TableName, i: nat)
    requires WellFormed(d) && name in d.tables && i < |d.tables[name].rows|
    ensures |Target(d).tables[name].rows| == |d.tables[name].rows|
    ensures var r, r' := d.tables[name].rows[i], Target(d).tables[name].rows[i];
      && (forall c :: c in r ==> c in r' && r'[c] == r[c])
      && (name == Orders ==> (UpstreamSlot !in r ==> Cell(r', UpstreamSlot) == Number(0)) &&
                             (RequireCsrKeyType !in r ==> Cell(r', RequireCsrKeyType) == Text("")))
      && (name == ResourceMap && CertFingerprint !in r ==> CertFingerprint in r' && r'[CertFingerprint] == Null)
  {
    assert TableOk(d.tables[name]);
  }

  /** The store's lookup: the first row with this upstream and slot. */
  function GetBySlot(rows: seq<Account>, upstream: string, slot: int): Option<Account> {
    if rows == [] then None
    else if rows[0].upstream == upstream && rows[0].slot == slot then Some(rows[0])
    else GetBySlot(rows[1..], upstream, slot)
  }

  function GetOld(rows: seq<OldAccount>, upstream: string): Option<OldAccount> {
    if rows == [] then None
    else if rows[0].upstream == upstream then Some(rows[0])
    else GetOld(rows[1..], upstream)
  }

  lemma {:induction false} SelectedIsReadable(rows: seq<OldAccount>, upstream: string, slot: int)
    ensures var found := GetOld(rows, upstream);
      GetBySlot(Selected(Old(rows)), upstream, slot) ==
        if slot == 0 && found.Some?
        then Some(Account(upstream, 0, found.value.url, found.value.key, found.value.created)) else None
  {
    if rows != [] {
      SelectedIsReadable(rows[1..], upstream, slot);
      assert Selected(Old(rows))[1..] == Selected(Old(rows[1..]));
    }
  }

  /** After migration each old account is read at slot 0, unchanged, and nothing else is. */
  lemma OldAccountsReadAtSlotZero(d: Database, upstream: string, slot: int)
    requires WellFormed(d) && d.upstreamAccounts.Some? && d.upstreamAccounts.value.Old?
    ensures var found := GetOld(d.upstreamAccounts.value.oldRows, upstream);
      GetBySlot(Target(d).upstreamAccounts.value.newRows, upstream, slot) ==
        if slot == 0 && found.Some?
        then Some(Account(upstream, 0, found.value.url, found.value.key, found.value.created)) else None
  {
    SelectedIsReadable(d.upstreamAccounts.value.oldRows, upstream, slot);
  }

  // ---------- a failed look for the slot column ----------

  lemma StatementLeavesAccounts(d: Database, step: Step, probeOk: bool)
    requires d.upstreamAccounts.Some? && !step.RebuildAccounts? && Exec(d, step, probeOk).Some?
    ensures Exec(d, step, probeOk).value.upstreamAccounts == d.upstreamAccounts
  {
  }

  lemma RebuildIsLast(i: nat)
    requires i < |SCRIPT|
    ensures SCRIPT[i].RebuildAccounts? <==> i == |SCRIPT| - 1
  {
  }

  lemma {:induction false} FailedProbeRebuilds(d: Database, fates: seq<bool>, i: nat)
    requires i < |SCRIPT| && d.upstreamAccounts.Some? && Attempt(d, false, fates, i).1
    ensures Attempt(d, false, fates, i).0.upstreamAccounts == Some(Rebuilt(d.upstreamAccounts.value))
    decreases |SCRIPT| - i
  {
    var step := SCRIPT[i];
    RebuildIsLast(i);
    if !step.RebuildAccounts? {
      var r := if fates[i] then Exec(d, step, false) else None;
      if r.Some? {
        StatementLeavesAccounts(d, step, false);
        FailedProbeRebuilds(r.value, fates, i + 1);
      } else {
        FailedProbeRebuilds(d, fates, i + 1);
      }
    }
  }

  lemma {:induction false} GetBySlotFinds(rows: seq<Account>, upstream: string, slot: int)
    ensures match GetBySlot(rows, upstream, slot)
      case Some(a) => a in rows && a.upstream == upstream && a.slot == slot
      case None => forall a :: a in rows ==> a.upstream != upstream || a.slot != slot
  {
    if rows != [] {
      GetBySlotFinds(rows[1..], upstream, slot);
      assert rows == [rows[0]] + rows[1..];
    }
  }

  /** The rebuild keeps no account at a slot other than 0. */
  lemma RebuiltHasSlotZeroOnly(rows: seq<Account>, upstream: string, slot: int)
    requires slot != 0
    ensures GetBySlot(Inserted(Selected(New(rows))), upstream, slot).None?
  {
    var after := Inserted(Selected(New(rows)));
    GetBySlotFinds(after, upstream, slot);
    match GetBySlot(after, upstream, slot)
    case None =>
    case Some(a) => InsertedComesFrom(Selected(New(rows)), a);
  }

  /**
    The result of the look for the slot column is used even when the query failed.  On an
    already migrated database the attempt then keeps every account readable exactly when
    no account has a slot other than 0.
  */
  lemma FailedProbeKeepsAccountsExactly(d: Database, fates: seq<bool>, rows: seq<Account>)
    requires WellFormed(d) && d.upstreamAccounts == Some(New(rows))
    ensures var (d', ok) := Attempt(d, false, fates, 0);
      ok ==>
        && d'.upstreamAccounts.Some? && d'.upstreamAccounts.value.New?
        && ((forall u, k :: GetBySlot(d'.upstreamAccounts.value.newRows, u, k) == GetBySlot(rows, u, k)) <==>
            (forall i :: 0 <= i < |rows| ==> rows[i].slot == 0))
  {
    if !Attempt(d, false, fates, 0).1 { return; }
    FailedProbeRebuilds(d, fates, 0);
    var after := Inserted(Selected(New(rows)));
    if i :| 0 <= i < |rows| && rows[i].slot != 0 {
      var u, k := rows[i].upstream, rows[i].slot;
      GetBySlotFinds(rows, u, k);
      RebuiltHasSlotZeroOnly(rows, u, k);
      assert GetBySlot(after, u, k) != GetBySlot(rows, u, k);
    } else {
      assert Selected(New(rows)) == rows;
      InsertedKeepsDistinct(rows);
    }
  }

  /** On a migrated database, an undisturbed attempt whose look for the column fails does nothing but rebuild. */
  lemma {:induction false} FailedProbeOnDone(d: Database, fates: seq<bool>, i: nat)
    requires DoneBefore(d, |SCRIPT|) && Undisturbed(fates) && i < |SCRIPT|
    ensures d.upstreamAccounts.Some?
    ensures Attempt(d, false, fates, i) == (d.(upstreamAccounts := Some(Rebuilt(d.upstreamAccounts.value))), true)
    decreases |SCRIPT| - i
  {
    assert Done(d, SCRIPT[12]) && Done(d, SCRIPT[i]);
    if i < 12 {
      assert SCRIPT[i].DropIndex? ==> d.indexes - {SCRIPT[i].index} == d.indexes;
      FailedProbeOnDone(d, fates, i + 1);
    }
  }

  const TWO_ACCOUNTS := [Account("ca", 0, "url0", "key0", "then"), Account("ca", 1, "url1", "key1", "then")]

  /** A migrated database with two accounts at one upstream. */
  ghost function TwoSlots(): (d: Database)
    ensures d.upstreamAccounts == Some(New(TWO_ACCOUNTS)) && DoneBefore(d, |SCRIPT|)
  {
    Target(Database(map[], Some(New(TWO_ACCOUNTS)), {}))
  }

  lemma SecondAccountIsThere()
    ensures GetBySlot(TWO_ACCOUNTS, "ca", 1) == Some(TWO_ACCOUNTS[1])
  {
    assert TWO_ACCOUNTS[1..] == [TWO_ACCOUNTS[1]];
  }

  /** Such an attempt reports success, and the second account is gone. */
  lemma FailedProbeLosesAccount(fates: seq<bool>)
    requires Undisturbed(fates)
    ensures GetBySlot(TWO_ACCOUNTS, "ca", 1).Some? && TwoSlots().upstreamAccounts == Some(New(TWO_ACCOUNTS))
    ensures var (d', ok) := Attempt(TwoSlots(), false, fates, 0);
      ok && d'.upstreamAccounts.Some? && d'.upstreamAccounts.value.New? &&
      GetBySlot(d'.upstreamAccounts.value.newRows, "ca", 1).None?
  {
    FailedProbeOnDone(TwoSlots(), fates, 0);
    SecondAccountIsThere();
    RebuiltHasSlotZeroOnly(TWO_ACCOUNTS, "ca", 1);
  }

  // ---------- the code ----------

  class Store {
    var db: Database

    /** One start of the process: the statements in order, on the database itself. */
    method Migrate(probeOk: bool, fates: seq<bool>) returns (ok: bool)
      modifies this
      ensures (db, ok) == Attempt(old(db), probeOk, fates, 0)
    {
      var i := 0;
      while i < |SCRIPT|
        invariant i <= |SCRIPT|
        invariant Attempt(db, probeOk, fates, i) == Attempt(old(db), probeOk, fates, 0)
      {
        if i >= |fates| {
          return false;
        }
        var r := if fates[i] then Exec(db, SCRIPT[i], probeOk) else None;
        if r.Some? {
          db := r.value;
        } else if SCRIPT[i].Required() {
          return false;
        }
        i := i + 1;
      }
      ok := true;
    }
  }
}
