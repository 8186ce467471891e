/** The migration runner of db/db.go, with every database call allowed to fail. */
module Migrations {
  import opened Sequences
  import opened Strings

  datatype Entry = Entry(name: string, isDir: bool)

  /** The call that fails while a migration is executed, if any. */
  datatype Failure = NoFailure | ReadFile | DisableFk | Begin | Exec | Record | Commit

  /** What SQLite holds: the rows of the migrations table and the scripts that took effect, in order. */
  datatype Db = Db(recorded: set<int>, applied: seq<string>)

  // ----- File names

  predicate IsDigit(c: char) {
    '0' <= c <= '9'
  }

  /** The pattern ^(\d{3})-.*\.sql$ */
  predicate IsMigration(name: string) {
    |name| >= 8 && IsDigit(name[0]) && IsDigit(name[1]) && IsDigit(name[2]) && name[3] == '-' &&
    '\n' !in name[4..|name| - 4] && name[|name| - 4..] == ".sql"
  }

  function Number(name: string): nat
    requires IsMigration(name)
  {
    100 * Digit(name[0]) + 10 * Digit(name[1]) + Digit(name[2])
  }

  function Digit(c: char): (d: nat)
    requires IsDigit(c)
    ensures d < 10
  {
    c as int - '0' as int
  }

  ghost predicate IsNumberThenSql(name: string, digits: string, middle: string) {
    && |digits| == 3 && (forall c | c in digits :: '0' <= c <= '9') && '\n' !in middle
    && name == digits + "-" + middle + ".sql"
  }

  lemma PartsOfName(name: string)
    requires IsMigration(name)
    ensures IsNumberThenSql(name, name[..3], name[4..|name| - 4])
  {
    assert name[..3] == [name[0], name[1], name[2]];
    assert name == name[..3] + [name[3]] + name[4..|name| - 4] + name[|name| - 4..];
  }

  lemma NameOfParts(name: string, digits: string, middle: string)
    requires IsNumberThenSql(name, digits, middle)
    ensures IsMigration(name)
  {
    assert digits[0] in digits && digits[1] in digits && digits[2] in digits;
    assert name[0] == digits[0] && name[1] == digits[1] && name[2] == digits[2] && name[3] == '-';
    assert name[4..|name| - 4] == middle && name[|name| - 4..] == ".sql";
  }

  lemma ThreeDigits(a: nat, b: nat, c: nat)
    requires a < 10 && b < 10 && c < 10
    ensures (100 * a + 10 * b + c) / 100 == a
    ensures (100 * a + 10 * b + c) / 10 % 10 == b
    ensures (100 * a + 10 * b + c) % 10 == c
  {
    assert (100 * a + 10 * b + c) / 10 == 10 * a + b;
  }

  lemma NumberIsWritten(name: string)
    requires IsMigration(name)
    ensures Number(name) < 1000 && name[..3] == Decimal3(Number(name))
  {
    ThreeDigits(Digit(name[0]), Digit(name[1]), Digit(name[2]));
    assert name[..3] == [name[0], name[1], name[2]];
    hide IsMigration;
  }

  /** A migration's name is its number in three decimal digits, a hyphen, anything on one line, and .sql. */
  lemma NameIsNumberThenSql(name: string)
    ensures IsMigration(name) <==> exists digits: string, middle: string :: IsNumberThenSql(name, digits, middle)
    ensures IsMigration(name) ==> Number(name) < 1000 && name[..3] == Decimal3(Number(name))
  {
    hide *;
    if IsMigration(name) {
      NameIsLong(name);
      PartsOfName(name);
      NumberIsWritten(name);
    }
    if digits: string, middle: string :| IsNumberThenSql(name, digits, middle) {
      NameOfParts(name, digits, middle);
    }
  }

  lemma NameIsLong(name: string)
    requires IsMigration(name)
    ensures |name| >= 8
  {
  }

  /** A number below a thousand with leading zeros. */
  function Decimal3(n: nat): string
    requires n < 1000
  {
    [('0' as int + n / 100) as char, ('0' as int + n / 10 % 10) as char, ('0' as int + n % 10) as char]
  }

  /** String order of three-digit names is numeric order. */
  lemma StringOrderIsNumeric(a: string, b: string)
    requires IsMigration(a) && IsMigration(b)
    ensures Number(a) < Number(b) ==> StringLess(a, b) && !StringLess(b, a)
    ensures StringLess(a, b) ==> Number(a) <= Number(b)
  {
    LessByFirst(a, b);
    LessByFirst(a[1..], b[1..]);
    LessByFirst(a[1..][1..], b[1..][1..]);
    LessByFirst(b, a);
    LessByFirst(b[1..], a[1..]);
    LessByFirst(b[1..][1..], a[1..][1..]);
    hide StringLess;
  }

  lemma LessByFirst(a: string, b: string)
    requires a != "" && b != ""
    ensures StringLess(a, b) <==> a[0] as int < b[0] as int || (a[0] == b[0] && StringLess(a[1..], b[1..]))
  {
  }

  function Insert(x: string, s: seq<string>): (r: seq<string>)
    ensures multiset(r) == multiset(s) + multiset{x}
  {
    if s == [] then [x]
    else if !StringLess(s[0], x) then [x] + s
    else
      assert s == [s[0]] + s[1..];
      [s[0]] + Insert(x, s[1..])
  }

  /** sort.Strings */
  function SortNames(s: seq<string>): (r: seq<string>)
    ensures multiset(r) == multiset(s)
  {
    if s == [] then []
    else
      assert s == [s[0]] + s[1..];
      Insert(s[0], SortNames(s[1..]))
  }

  predicate NumericOrder(s: seq<string>)
    requires forall m | m in s :: IsMigration(m)
  {
    forall i, j | 0 <= i < j < |s| :: Number(s[i]) <= Number(s[j])
  }

  lemma {:induction false} InsertKeepsOrder(x: string, s: seq<string>)
    requires IsMigration(x) && (forall m | m in s :: IsMigration(m)) && NumericOrder(s)
    ensures forall m | m in Insert(x, s) :: m == x || m in s
    ensures NumericOrder(Insert(x, s))
  {
    if s != [] {
      StringOrderIsNumeric(x, s[0]);
      StringOrderIsNumeric(s[0], x);
      if StringLess(s[0], x) {
        InsertKeepsOrder(x, s[1..]);
        forall m | m in Insert(x, s[1..])
          ensures Number(s[0]) <= Number(m)
        {
        }
      }
    }
  }

  /** The migrations to consider: the matching files, sorted by name. */
  function Listed(entries: seq<Entry>): (names: seq<string>)
    ensures forall m | m in names :: IsMigration(m)
  {
    SortedIsNumeric(Matching(entries));
    SortNames(Matching(entries))
  }

  function Matching(entries: seq<Entry>): (names: seq<string>)
    ensures forall m | m in names :: IsMigration(m)
  {
    var kept := Filter(entries, (e: Entry) => !e.isDir && IsMigration(e.name));
    assert forall i | 0 <= i < |kept| :: kept[i] in kept;
    Map(kept, (e: Entry) => e.name)
  }

  lemma {:induction false} SortedIsNumeric(s: seq<string>)
    requires forall m | m in s :: IsMigration(m)
    ensures (forall m | m in SortNames(s) :: IsMigration(m)) && NumericOrder(SortNames(s))
  {
    if s != [] {
      SortedIsNumeric(s[1..]);
      InsertKeepsOrder(s[0], SortNames(s[1..]));
    }
  }

  /** The listed migrations come in numeric order. */
  lemma ListedInNumericOrder(entries: seq<Entry>)
    ensures NumericOrder(Listed(entries))
  {
    SortedIsNumeric(Matching(entries));
  }

  lemma {:induction false} InsertKeepsNameOrder(x: string, s: seq<string>)
    requires forall i, j | 0 <= i < j < |s| :: !StringLess(s[j], s[i])
    ensures forall m | m in Insert(x, s) :: m == x || m in s
    ensures forall i, j | 0 <= i < j < |Insert(x, s)| :: !StringLess(Insert(x, s)[j], Insert(x, s)[i])
  {
    hide StringLess;
    if s != [] {
      if StringLess(s[0], x) {
        InsertKeepsNameOrder(x, s[1..]);
        StringOrder(s[0], x, s[0]);
        forall m | m in Insert(x, s[1..]) ensures !StringLess(m, s[0]) {
        }
      } else {
        forall j | 0 <= j < |s| ensures !StringLess(s[j], x) {
          StringOrder(s[j], x, s[0]);
          StringOrder(s[0], s[j], x);
          StringOrder(x, s[0], s[j]);
        }
      }
    }
  }

  lemma {:induction false} SortedByName(s: seq<string>)
    ensures forall i, j | 0 <= i < j < |SortNames(s)| :: !StringLess(SortNames(s)[j], SortNames(s)[i])
  {
    hide StringLess;
    if s != [] {
      SortedByName(s[1..]);
      InsertKeepsNameOrder(s[0], SortNames(s[1..]));
    }
  }

  /** The migrations to consider are the names of the matching files, each as often as it occurs, by name. */
  lemma ListedAreMatching(entries: seq<Entry>)
    ensures multiset(Listed(entries)) == multiset(Matching(entries))
    ensures forall i, j | 0 <= i < j < |Listed(entries)| :: !StringLess(Listed(entries)[j], Listed(entries)[i])
    ensures forall name :: name in Listed(entries) <==> IsMigration(name) && Entry(name, false) in entries
  {
    SortedByName(Matching(entries));
    var kept := Filter(entries, (e: Entry) => !e.isDir && IsMigration(e.name));
    forall name ensures name in Listed(entries) <==> IsMigration(name) && Entry(name, false) in entries {
      assert name in Listed(entries) <==> name in multiset(Listed(entries));
      assert name in Matching(entries) <==> name in multiset(Matching(entries));
      if name in Matching(entries) {
        var i :| 0 <= i < |kept| && kept[i].name == name;
        assert kept[i] in kept && kept[i] == Entry(name, false);
      }
      if IsMigration(name) && Entry(name, false) in entries {
        var i :| 0 <= i < |kept| && kept[i] == Entry(name, false);
        assert Matching(entries)[i] == name;
      }
    }
  }

  // ----- One run

  type Migrations = s: seq<string> | forall m | m in s :: IsMigration(m)

  function Apply(db: Db, name: string): Db
    requires IsMigration(name)
  {
    Db(db.recorded + {Number(name)}, db.applied + [name])
  }

  /** `fail` names the migrations whose execution fails during this run. The numbers
      already recorded are read once, before the first migration runs. */
  function RunFrom(db: Db, executed: set<int>, migrations: Migrations, fail: set<string>): (Db, bool)
    decreases migrations
  {
    if migrations == [] then (db, true)
    else if Number(migrations[0]) in executed then RunFrom(db, executed, migrations[1..], fail)
    else if migrations[0] in fail then (db, false)
    else RunFrom(Apply(db, migrations[0]), executed, migrations[1..], fail)
  }

  function Run(db: Db, migrations: Migrations, fail: set<string>): (Db, bool) {
    RunFrom(db, db.recorded, migrations, fail)
  }

  function Pending(executed: set<int>, migrations: Migrations): Migrations {
    Filter(migrations, (m: string) => IsMigration(m) && Number(m) !in executed)
  }

  function Numbers(migrations: Migrations): set<int> {
    set m | m in migrations :: Number(m)
  }

  lemma NumbersConcat(a: Migrations, b: Migrations)
    ensures Numbers(a + b) == Numbers(a) + Numbers(b)
  {
  }

  predicate DistinctNumbers(migrations: Migrations) {
    forall i, j | 0 <= i < j < |migrations| :: Number(migrations[i]) != Number(migrations[j])
  }

  lemma NoNumbers()
    ensures Numbers([]) == {}
    ensures forall m | IsMigration(m) :: Numbers([m]) == {Number(m)}
  {
  }

  lemma PendingUnfolds(executed: set<int>, migrations: Migrations)
    ensures Pending(executed, migrations) ==
            if migrations == [] then []
            else if Number(migrations[0]) in executed then Pending(executed, migrations[1..])
            else [migrations[0]] + Pending(executed, migrations[1..])
  {
  }

  /** A run applies a prefix of what was pending, all of it exactly when it succeeds. */
  lemma {:induction false} RunAppliesPrefix(db: Db, executed: set<int>, migrations: Migrations, fail: set<string>)
    returns (k: nat)
    ensures k <= |Pending(executed, migrations)|
    ensures RunFrom(db, executed, migrations, fail).0.applied == db.applied + Pending(executed, migrations)[..k]
    ensures RunFrom(db, executed, migrations, fail).0.recorded ==
            db.recorded + Numbers(Pending(executed, migrations)[..k])
    ensures RunFrom(db, executed, migrations, fail).1 <==> k == |Pending(executed, migrations)|
    decreases migrations
  {
    hide *;
    PendingUnfolds(executed, migrations);
    RunUnfolds(db, executed, migrations, fail);
    NoNumbers();
    assert Pending(executed, migrations)[..0] == [];
    if migrations == [] || (Number(migrations[0]) !in executed && migrations[0] in fail) {
      k := 0;
    } else {
      var m, rest := migrations[0], migrations[1..];
      if Number(m) in executed {
        k := RunAppliesPrefix(db, executed, rest, fail);
      } else {
        var tail := Pending(executed, rest);
        k := RunAppliesPrefix(Apply(db, m), executed, rest, fail);
        assert ([m] + tail)[..k + 1] == [m] + tail[..k];
        NumbersConcat([m], tail[..k]);
        k := k + 1;
      }
    }
  }

  lemma RunUnfolds(db: Db, executed: set<int>, migrations: Migrations, fail: set<string>)
    ensures RunFrom(db, executed, migrations, fail) ==
      if migrations == [] then (db, true)
      else if Number(migrations[0]) in executed then RunFrom(db, executed, migrations[1..], fail)
      else if migrations[0] in fail then (db, false)
      else RunFrom(Apply(db, migrations[0]), executed, migrations[1..], fail)
    ensures migrations != [] ==>
      Apply(db, migrations[0]) == Db(db.recorded + {Number(migrations[0])}, db.applied + [migrations[0]])
  {
    hide Number, IsMigration;
  }

  // ----- Any sequence of runs

  /** Applied and recorded agree, and nothing was applied twice. */
  ghost predicate Consistent(db: Db) {
    && (forall m | m in db.applied :: IsMigration(m))
    && Numbers(db.applied) == db.recorded
    && DistinctNumbers(db.applied)
  }

  /** Runs over changing sets of files, each failing wherever it fails. */
  datatype Attempt = Attempt(migrations: Migrations, fail: set<string>)

  function RunAll(db: Db, attempts: seq<Attempt>): Db {
    if attempts == [] then db
    else
      var earlier := RunAll(db, attempts[..|attempts| - 1]);
      Run(earlier, attempts[|attempts| - 1].migrations, attempts[|attempts| - 1].fail).0
  }

  lemma {:induction false} PendingIsDistinct(executed: set<int>, migrations: Migrations)
    requires DistinctNumbers(migrations)
    ensures DistinctNumbers(Pending(executed, migrations))
  {
    if migrations != [] {
      var tail := Pending(executed, migrations[1..]);
      PendingIsDistinct(executed, migrations[1..]);
      forall i | 0 <= i < |tail|
        ensures Number(tail[i]) != Number(migrations[0])
      {
        assert tail[i] in migrations[1..];
      }
    }
  }

  lemma RunKeepsConsistent(db: Db, migrations: Migrations, fail: set<string>)
    requires Consistent(db) && DistinctNumbers(migrations)
    ensures Consistent(Run(db, migrations, fail).0)
  {
    var k := RunAppliesPrefix(db, db.recorded, migrations, fail);
    PendingIsDistinct(db.recorded, migrations);
    PendingIsNew(db.recorded, migrations);
    hide RunFrom, Pending, Number;
    AppendKeepsConsistent(db, Run(db, migrations, fail).0, Pending(db.recorded, migrations)[..k]);
  }

  lemma PendingIsNew(executed: set<int>, migrations: Migrations)
    ensures forall m | m in Pending(executed, migrations) :: Number(m) !in executed
  {
  }

  /** Applying distinct migrations that are not on record yet. */
  lemma AppendKeepsConsistent(db: Db, after: Db, added: Migrations)
    requires Consistent(db) && DistinctNumbers(added) && forall m | m in added :: Number(m) !in db.recorded
    requires after == Db(db.recorded + Numbers(added), db.applied + added)
    ensures Consistent(after)
  {
    NumbersConcat(db.applied, added);
    assert forall m | m in db.applied :: Number(m) in Numbers(db.applied);
    hide Number, Numbers;
    DistinctConcat(db.applied, added);
  }

  lemma DistinctConcat(a: Migrations, b: Migrations)
    requires DistinctNumbers(a) && DistinctNumbers(b)
    requires forall x, y | x in a && y in b :: Number(x) != Number(y)
    ensures DistinctNumbers(a + b)
  {
    hide Number;
    var c := a + b;
    assert forall i | 0 <= i < |c| :: c[i] == if i < |a| then a[i] else b[i - |a|];
    assert (forall i | 0 <= i < |a| :: a[i] in a) && (forall i | 0 <= i < |b| :: b[i] in b);
  }

  /** Over any runs, failing anywhere, each migration takes effect at most once and
      what took effect is exactly what is recorded. */
  lemma {:induction false} EveryRunStaysConsistent(attempts: seq<Attempt>)
    requires forall a | a in attempts :: DistinctNumbers(a.migrations)
    ensures Consistent(RunAll(Db({}, []), attempts))
  {
    if attempts != [] {
      EveryRunStaysConsistent(attempts[..|attempts| - 1]);
      var last := attempts[|attempts| - 1];
      assert last in attempts;
      RunKeepsConsistent(RunAll(Db({}, []), attempts[..|attempts| - 1]), last.migrations, last.fail);
    }
  }

  /** A run after a successful one finds nothing to do and cannot fail. */
  lemma RerunIsNoOp(db: Db, migrations: Migrations, fail: set<string>, failAgain: set<string>)
    requires Run(db, migrations, fail).1
    ensures Run(Run(db, migrations, fail).0, migrations, failAgain) == (Run(db, migrations, fail).0, true)
  {
    var done := Run(db, migrations, fail).0;
    var k := RunAppliesPrefix(db, db.recorded, migrations, fail);
    var pending := Pending(db.recorded, migrations);
    assert pending[..k] == pending;
    forall m | m in migrations
      ensures Number(m) in done.recorded
    {
      if Number(m) !in db.recorded {
        assert m in pending;
      }
    }
    NothingPending(done, done.recorded, migrations, failAgain);
  }

  lemma {:induction false} NothingPending(db: Db, executed: set<int>, migrations: Migrations, fail: set<string>)
    requires forall m | m in migrations :: Number(m) in executed
    ensures RunFrom(db, executed, migrations, fail) == (db, true)
  {
    if migrations != [] {
      NothingPending(db, executed, migrations[1..], fail);
    }
  }

  /** One more run over the same files extends the prefix applied so far. */
  lemma RunExtendsPrefix(migrations: Migrations, j: nat, fail: set<string>) returns (k: nat)
    requires DistinctNumbers(migrations) && j <= |migrations|
    ensures j <= k <= |migrations|
    ensures Run(PrefixApplied(migrations, j), migrations, fail) == (PrefixApplied(migrations, k), k == |migrations|)
  {
    hide Pending, Numbers, RunFrom, DistinctNumbers;
    var db := Db(Numbers(migrations[..j]), migrations[..j]);
    PendingAfterPrefix(migrations, j);
    var i := RunAppliesPrefix(db, db.recorded, migrations, fail);
    k := j + i;
    assert migrations[..k] == migrations[..j] + migrations[j..][..i];
    NumbersConcat(migrations[..j], migrations[j..][..i]);
  }

  function PrefixApplied(migrations: Migrations, k: nat): Db
    requires k <= |migrations|
  {
    Db(Numbers(migrations[..k]), migrations[..k])
  }

  /** With a fixed set of files the scripts applied are always a prefix of the sorted
      list, and all of it once a run has succeeded. */
  lemma {:induction false} AppliedIsPrefix(migrations: Migrations, fails: seq<set<string>>) returns (k: nat)
    requires DistinctNumbers(migrations)
    ensures k <= |migrations|
    ensures RunAll(Db({}, []), Attempts(migrations, fails)) == PrefixApplied(migrations, k)
    ensures LastSucceeds(migrations, fails) ==> k == |migrations|
  {
    if fails == [] {
      k := 0;
      assert migrations[..0] == [];
    } else {
      var earlier := fails[..|fails| - 1];
      assert Attempts(migrations, fails)[..|fails| - 1] == Attempts(migrations, earlier);
      var j := AppliedIsPrefix(migrations, earlier);
      k := RunExtendsPrefix(migrations, j, fails[|fails| - 1]);
    }
  }

  predicate LastSucceeds(migrations: Migrations, fails: seq<set<string>>) {
    fails != [] &&
    Run(RunAll(Db({}, []), Attempts(migrations, fails[..|fails| - 1])), migrations, fails[|fails| - 1]).1
  }

  function Attempts(migrations: Migrations, fails: seq<set<string>>): seq<Attempt> {
    Map(fails, f => Attempt(migrations, f))
  }

  lemma PendingAfterPrefix(migrations: Migrations, j: nat)
    requires DistinctNumbers(migrations) && j <= |migrations|
    ensures Pending(Numbers(migrations[..j]), migrations) == migrations[j..]
  {
    var isPending := (m: string) => IsMigration(m) && Number(m) !in Numbers(migrations[..j]);
    assert Pending(Numbers(migrations[..j]), migrations) == Filter(migrations, isPending);
    assert migrations == migrations[..j] + migrations[j..];
    FilterConcat(migrations[..j], migrations[j..], isPending);
    FilterKeepsNone(migrations[..j], isPending);
    FilterKeepsAll(migrations[j..], isPending);
  }

  // ----- Two files with one number

  /** Whatever runs failed before it, a successful run leaves every migration applied. */
  ghost predicate NothingLost(migrations: Migrations) {
    forall fails: seq<set<string>> | LastSucceeds(migrations, fails) ::
      forall m | m in migrations :: m in RunAll(Db({}, []), Attempts(migrations, fails)).applied
  }

  /** A run stopped at its first failing migration has applied everything before it. */
  lemma {:induction false} RunStopsAt(db: Db, migrations: Migrations, j: nat)
    requires j < |migrations| && migrations[j] !in migrations[..j]
    ensures RunFrom(db, {}, migrations, {migrations[j]}) ==
            (Db(db.recorded + Numbers(migrations[..j]), db.applied + migrations[..j]), false)
    decreases j
  {
    hide Numbers;
    NoNumbers();
    if j == 0 {
      assert migrations[..0] == [] && db.applied + [] == db.applied && db.recorded + {} == db.recorded;
    } else {
      var m, rest := migrations[0], migrations[1..];
      assert migrations[..j] == [m] + rest[..j - 1];
      NumbersConcat([m], rest[..j - 1]);
      assert migrations[..j][0] == m;
      assert db.applied + migrations[..j] == db.applied + [m] + rest[..j - 1];
      RunStopsAt(Apply(db, m), rest, j - 1);
      var name := migrations[j];
      assert m != name && rest[j - 1] == name;
      assert RunFrom(db, {}, migrations, {name}) == RunFrom(Apply(db, m), {}, rest, {name});
      var r := RunFrom(Apply(db, m), {}, rest, {name});
      assert r.0.recorded == db.recorded + Numbers(migrations[..j]);
    }
  }

  lemma {:induction false} NoFailureSucceeds(db: Db, executed: set<int>, migrations: Migrations)
    ensures RunFrom(db, executed, migrations, {}).1
    decreases migrations
  {
    if migrations != [] {
      NoFailureSucceeds(db, executed, migrations[1..]);
      NoFailureSucceeds(Apply(db, migrations[0]), executed, migrations[1..]);
    }
  }

  /** When file `j` shares its number with an earlier one, a failure at `j` followed by a
      good run leaves it unapplied for ever: its number is already on record. */
  lemma SharedNumberIsLost(migrations: Migrations, i: nat, j: nat)
    requires i < j < |migrations| && Number(migrations[i]) == Number(migrations[j])
    requires migrations[j] !in migrations[..j]
    ensures LastSucceeds(migrations, [{migrations[j]}, {}])
    ensures migrations[j] !in RunAll(Db({}, []), Attempts(migrations, [{migrations[j]}, {}])).applied
  {
    hide Pending, Numbers, RunFrom;
    var first, both := Attempts(migrations, [{migrations[j]}]), Attempts(migrations, [{migrations[j]}, {}]);
    assert [{migrations[j]}, {}][..1] == [{migrations[j]}];
    assert both[..1] == first && first[..0] == [];
    RunStopsAt(Db({}, []), migrations, j);
    var db := RunAll(Db({}, []), first);
    assert first == [Attempt(migrations, {migrations[j]})] && first[..|first| - 1] == [];
    assert RunAll(Db({}, []), []) == Db({}, []);
    assert db == Run(Db({}, []), migrations, {migrations[j]}).0;
    assert [] + migrations[..j] == migrations[..j] && {} + Numbers(migrations[..j]) == Numbers(migrations[..j]);
    NoFailureSucceeds(db, db.recorded, migrations);
    assert db == Db(Numbers(migrations[..j]), migrations[..j]);
    var k := RunAppliesPrefix(db, db.recorded, migrations, {});
    assert migrations[j] !in Pending(db.recorded, migrations) by {
      assert migrations[i] in migrations[..j];
      RecordedIsNotPending(migrations, j, migrations[j]);
    }
  }

  lemma RecordedIsNotPending(migrations: Migrations, j: nat, m: string)
    requires IsMigration(m) && j <= |migrations| && exists e | e in migrations[..j] :: Number(e) == Number(m)
    ensures m !in Pending(Numbers(migrations[..j]), migrations)
  {
  }

  /** No migration is ever lost exactly when the files have distinct numbers. */
  lemma NothingLostIffDistinctNumbers(migrations: Migrations)
    requires forall i, j | 0 <= i < j < |migrations| :: migrations[i] != migrations[j]
    ensures NothingLost(migrations) <==> DistinctNumbers(migrations)
  {
    hide RunAll, LastSucceeds, Attempts;
    if DistinctNumbers(migrations) {
      forall fails: seq<set<string>> | LastSucceeds(migrations, fails)
        ensures forall m | m in migrations :: m in RunAll(Db({}, []), Attempts(migrations, fails)).applied
      {
        var k := AppliedIsPrefix(migrations, fails);
        assert migrations[..k] == migrations;
      }
    } else {
      var i, j :| 0 <= i < j < |migrations| && Number(migrations[i]) == Number(migrations[j]);
      SharedNumberIsLost(migrations, i, j);
    }
  }

  /** Two files with one number, the second of which fails once. */
  lemma SecondFileIsLost()
    ensures var files, fails := Listed([Entry("001-b.sql", false), Entry("001-a.sql", false)]), [{"001-b.sql"}, {}];
      && files == ["001-a.sql", "001-b.sql"]
      && LastSucceeds(files, fails) && "001-b.sql" !in RunAll(Db({}, []), Attempts(files, fails)).applied
  {
    BothAreListed();
    SameNumber();
    hide *;
    PairLoses("001-a.sql", "001-b.sql");
  }

  lemma SameNumber()
    ensures IsMigration("001-a.sql") && IsMigration("001-b.sql") && "001-a.sql" != "001-b.sql"
    ensures Number("001-a.sql") == Number("001-b.sql")
  {
    assert "001-a.sql"[4] != "001-b.sql"[4];
  }

  lemma PairLoses(a: string, b: string)
    requires IsMigration(a) && IsMigration(b) && a != b && Number(a) == Number(b)
    ensures LastSucceeds([a, b], [{b}, {}]) && b !in RunAll(Db({}, []), Attempts([a, b], [{b}, {}])).applied
  {
    hide *;
    assert [a, b][..1] == [a];
    SharedNumberIsLost([a, b], 0, 1);
  }

  lemma {:induction false} SamePrefixLess(p: string, a: string, b: string)
    requires StringLess(a, b)
    ensures StringLess(p + a, p + b)
  {
    hide StringLess;
    if p == "" {
      assert p + a == a && p + b == b;
    } else {
      SamePrefixLess(p[1..], a, b);
      assert (p + a)[1..] == p[1..] + a && (p + b)[1..] == p[1..] + b;
      LessByFirst(p + a, p + b);
    }
  }

  lemma FirstBeforeSecond()
    ensures StringLess("001-a.sql", "001-b.sql")
  {
    hide StringLess;
    LessByFirst("a.sql", "b.sql");
    SamePrefixLess("001-", "a.sql", "b.sql");
    assert "001-" + "a.sql" == "001-a.sql" && "001-" + "b.sql" == "001-b.sql";
  }

  lemma SortedPair(a: string, b: string)
    requires StringLess(a, b)
    ensures SortNames([b, a]) == [a, b]
  {
    assert SortNames([a]) == [a] && [b, a][1..] == [a] && [a][1..] == [];
    hide StringLess;
    assert Insert(b, [a]) == [a, b];
  }

  lemma BothMatch(a: string, b: string)
    requires IsMigration(a) && IsMigration(b)
    ensures Matching([Entry(b, false), Entry(a, false)]) == [b, a]
  {
    hide IsMigration;
    var entries := [Entry(b, false), Entry(a, false)];
    FilterKeepsAll(entries, (e: Entry) => !e.isDir && IsMigration(e.name));
  }

  lemma BothAreListed()
    ensures Listed([Entry("001-b.sql", false), Entry("001-a.sql", false)]) == ["001-a.sql", "001-b.sql"]
  {
    assert IsMigration("001-a.sql") && IsMigration("001-b.sql");
    hide IsMigration, StringLess, SortNames, Matching;
    BothMatch("001-a.sql", "001-b.sql");
    FirstBeforeSecond();
    SortedPair("001-a.sql", "001-b.sql");
  }

  // ----- The runner itself

  /** What happens to the calls made for one migration: the one that fails, the pooled connections on
      which foreign keys are switched off, the transaction runs and foreign keys are switched back on, and
      whether the last of these, whose error is dropped, succeeds. */
  datatype Calls = Calls(failure: Failure, offOn: nat, txOn: nat, onOn: nat, restored: bool)

  function FailingNames(calls: map<string, Calls>, disablesFk: set<string>): set<string> {
    set m | m in calls && Fails(calls[m].failure, m in disablesFk)
  }

  predicate Fails(failure: Failure, disablesFk: bool) {
    failure != NoFailure && (failure != DisableFk || disablesFk)
  }

  /** The migration asks for foreign keys to be off and gets as far as switching them off. */
  predicate SwitchesOff(calls: Calls, disablesFk: bool) {
    disablesFk && calls.failure != ReadFile && calls.failure != DisableFk
  }

  /** Foreign keys are switched back on where they were switched off. */
  predicate Restores(calls: Calls, disablesFk: bool) {
    SwitchesOff(calls, disablesFk) ==> calls.restored && calls.onOn == calls.offOn
  }

  predicate AllOn(foreignKeys: seq<bool>) {
    forall c | 0 <= c < |foreignKeys| :: foreignKeys[c]
  }

  predicate InPool(size: nat, calls: Calls) {
    calls.offOn < size && calls.txOn < size && calls.onOn < size
  }

  function AfterPragmas(foreignKeys: seq<bool>, calls: Calls, disablesFk: bool): (after: seq<bool>)
    requires InPool(|foreignKeys|, calls)
    ensures |after| == |foreignKeys|
  {
    if !SwitchesOff(calls, disablesFk) then foreignKeys
    else
      var off := foreignKeys[calls.offOn := false];
      if calls.restored then off[calls.onOn := true] else off
  }

  /** Foreign keys are on again if and only if they are switched on where they were switched off. */
  lemma AllOnAgainIff(foreignKeys: seq<bool>, calls: Calls, disablesFk: bool)
    requires InPool(|foreignKeys|, calls) && AllOn(foreignKeys)
    ensures AllOn(AfterPragmas(foreignKeys, calls, disablesFk)) <==> Restores(calls, disablesFk)
  {
    if !Restores(calls, disablesFk) {
      assert !AfterPragmas(foreignKeys, calls, disablesFk)[calls.offOn];
    }
  }

  const NO_TROUBLE := Calls(NoFailure, 0, 0, 0, true)

  function CallsFor(calls: map<string, Calls>, name: string): Calls {
    if name in calls then calls[name] else NO_TROUBLE
  }

  predicate AllInPool(size: nat, calls: map<string, Calls>) {
    size > 0 && forall m | m in calls :: InPool(size, calls[m])
  }

  predicate AllRestore(calls: map<string, Calls>, disablesFk: set<string>) {
    forall m | m in calls :: Restores(calls[m], m in disablesFk)
  }

  lemma CallsAreGood(size: nat, calls: map<string, Calls>, disablesFk: set<string>, name: string)
    requires AllInPool(size, calls)
    ensures InPool(size, CallsFor(calls, name))
    ensures AllRestore(calls, disablesFk) ==> Restores(CallsFor(calls, name), name in disablesFk)
  {
  }

  lemma NextMigration(db: Db, executed: set<int>, migrations: Migrations, i: nat, calls: map<string, Calls>,
                      disablesFk: set<string>)
    requires i < |migrations|
    ensures var fail, m := FailingNames(calls, disablesFk), migrations[i];
      RunFrom(db, executed, migrations[i..], fail) ==
        if Number(m) in executed then RunFrom(db, executed, migrations[i + 1..], fail)
        else if Fails(CallsFor(calls, m).failure, m in disablesFk) then (db, false)
        else RunFrom(Apply(db, m), executed, migrations[i + 1..], fail)
  {
    hide IsMigration, Number;
    assert migrations[i..][1..] == migrations[i + 1..];
  }

  class Database {
    var recorded: set<int>
    var applied: seq<string>
    /** One setting for each connection of the pool; connections are opened with foreign keys on. */
    var foreignKeys: seq<bool>

    function State(): Db
      reads this
    {
      Db(recorded, applied)
    }

    /** The transaction of executeMigration: all of it or nothing. */
    method ExecuteInTransaction(name: string, failure: Failure) returns (ok: bool)
      requires IsMigration(name)
      modifies this`recorded, this`applied
      ensures ok <==> failure !in {Begin, Exec, Record, Commit}
      ensures State() == if ok then Apply(old(State()), name) else old(State())
    {
      if failure == Begin {
        return false;
      }
      var txRecorded, txApplied := recorded, applied;
      txApplied := txApplied + [name];
      if failure == Exec {
        return false;
      }
      txRecorded := txRecorded + {Number(name)};
      if failure == Record || failure == Commit {
        return false;
      }
      recorded, applied := txRecorded, txApplied;
      return true;
    }

    /** executeMigration. `enforced` tells whether the script runs with foreign keys on: with all of them on
        before, it runs without if and only if it gets the connection they were switched off on. */
    method ExecuteMigration(name: string, disablesFk: bool, calls: Calls) returns (ok: bool, enforced: bool)
      requires IsMigration(name) && InPool(|foreignKeys|, calls)
      modifies this
      ensures ok <==> !Fails(calls.failure, disablesFk)
      ensures State() == if ok then Apply(old(State()), name) else old(State())
      ensures foreignKeys == AfterPragmas(old(foreignKeys), calls, disablesFk)
      ensures AllOn(old(foreignKeys)) ==> (AllOn(foreignKeys) <==> Restores(calls, disablesFk))
      ensures AllOn(old(foreignKeys)) && ok ==> (enforced <==> !(disablesFk && calls.txOn == calls.offOn))
    {
      if AllOn(foreignKeys) {
        AllOnAgainIff(foreignKeys, calls, disablesFk);
      }
      enforced := foreignKeys[calls.txOn];
      if calls.failure == ReadFile {
        return false, enforced;
      }
      if disablesFk {
        if calls.failure == DisableFk {
          return false, enforced;
        }
        foreignKeys := foreignKeys[calls.offOn := false];
      }
      enforced := foreignKeys[calls.txOn];
      ok := ExecuteInTransaction(name, calls.failure);
      if disablesFk && calls.restored {
        foreignKeys := foreignKeys[calls.onOn := true];
      }
    }

    /** runMigrations: refines Run over the sorted matching files. */
    method RunMigrations(entries: seq<Entry>, disablesFk: set<string>, calls: map<string, Calls>) returns (ok: bool)
      requires AllInPool(|foreignKeys|, calls)
      modifies this
      ensures (State(), ok) == Run(old(State()), Listed(entries), FailingNames(calls, disablesFk))
      ensures |foreignKeys| == |old(foreignKeys)|
      ensures AllOn(old(foreignKeys)) && AllRestore(calls, disablesFk) ==> AllOn(foreignKeys)
    {
      var migrations: Migrations := Listed(entries);
      var executed := recorded;
      ghost var fail := FailingNames(calls, disablesFk);
      hide AllOn, Restores, AfterPragmas, Apply, RunFrom, Number, FailingNames, CallsFor, InPool, AllInPool, AllRestore;
      hide Listed, IsMigration, Fails, SwitchesOff;
      for i := 0 to |migrations|
        invariant Run(old(State()), migrations, fail) == RunFrom(State(), executed, migrations[i..], fail)
        invariant |foreignKeys| == |old(foreignKeys)|
        invariant AllOn(old(foreignKeys)) && AllRestore(calls, disablesFk) ==> AllOn(foreignKeys)
      {
        var m := migrations[i];
        NextMigration(State(), executed, migrations, i, calls, disablesFk);
        if Number(m) in executed {
          continue;
        }
        CallsAreGood(|foreignKeys|, calls, disablesFk, m);
        var done, _ := ExecuteMigration(m, m in disablesFk, CallsFor(calls, m));
        if !done {
          return false;
        }
      }
      NothingPending(State(), executed, migrations[|migrations|..], fail);
      return true;
    }
  }
}
