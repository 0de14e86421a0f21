/** The migration runner: reading the embedded files, applying what is pending, and reporting on it. */
module Migrations {
  import opened Common
  import ThumbnailKeys

  datatype Migration = Migration(version: int, name: string, checksum: string)

  // ---- reading the embedded files ----

  /** One directory entry; its body is read through the checksum alone. */
  datatype File = File(name: string, isDir: bool, checksum: string)

  datatype Loaded = Loaded(migrations: seq<Migration>) | Malformed(file: string) | Duplicate(version: int)

  predicate IsDigit(c: char) {
    '0' <= c <= '9'
  }

  function DigitsValue(s: string): (r: Option<nat>)
    ensures r.Some? <==> s != "" && forall c :: c in s ==> IsDigit(c)
    decreases |s|
  {
    if s == "" then None
    else
      var last := s[|s| - 1];
      if !IsDigit(last) then None
      else if |s| == 1 then Some(last as int - '0' as int)
      else
        assert s == s[..|s| - 1] + [last];
        match DigitsValue(s[..|s| - 1])
        case None => None
        case Some(v) => Some(10 * v + (last as int - '0' as int))
  }

  /** strconv.ParseInt(s, 10, 64). */
  function ParseInt(s: string): (r: Option<int>)
    ensures r.Some? ==> -TWO_TO_63 <= r.value < TWO_TO_63
  {
    if s == "" then None
    else
      var negative, digits := s[0] == '-', if s[0] == '-' || s[0] == '+' then s[1..] else s;
      match DigitsValue(digits)
      case None => None
      case Some(v) =>
        var x: int := if negative then -(v as int) else v;
        if -TWO_TO_63 <= x < TWO_TO_63 then Some(x) else None
  }

  function CutAt(s: string, sep: char): (r: Option<(string, string)>)
    ensures r.None? <==> sep !in s
    ensures r.Some? ==> sep !in r.value.0 && s == r.value.0 + [sep] + r.value.1
  {
    if s == "" then None
    else if s[0] == sep then
      assert s == [] + [sep] + s[1..];
      Some(("", s[1..]))
    else
      match CutAt(s[1..], sep)
      case None => None
      case Some((a, b)) =>
        assert s == ([s[0]] + a) + [sep] + b;
        Some(([s[0]] + a, b))
  }

  const SUFFIX := ".sql"

  predicate IsMigrationFile(f: File) {
    !f.isDir && |f.name| >= |SUFFIX| && f.name[|f.name| - |SUFFIX|..] == SUFFIX
  }

  lemma MigrationFilesEndInSql(f: File)
    ensures IsMigrationFile(f) <==> !f.isDir && exists base :: f.name == base + ".sql"
  {
    if IsMigrationFile(f) {
      assert f.name == f.name[..|f.name| - |SUFFIX|] + SUFFIX;
    }
  }

  /** NNNN_name.sql, with a positive version. */
  function Parse(f: File): Option<Migration>
    requires IsMigrationFile(f)
  {
    match CutAt(f.name[..|f.name| - |SUFFIX|], '_')
    case None => None
    case Some((prefix, rest)) =>
      match ParseInt(prefix)
      case None => None
      case Some(version) => if version <= 0 then None else Some(Migration(version, rest, f.checksum))
  }

  function Zeros(k: nat): string {
    seq(k, i => '0')
  }

  lemma {:induction false} PaddedValue(k: nat, n: nat)
    ensures DigitsValue(Zeros(k) + ThumbnailKeys.Decimal(n)) == Some(n)
    decreases n
  {
    ThumbnailKeys.DecimalReadsBack(n);
    var s := Zeros(k) + ThumbnailKeys.Decimal(n);
    if n < 10 {
      OnlyZeros(k);
      assert s[..|s| - 1] == Zeros(k);
      assert s[|s| - 1] == ThumbnailKeys.Digit(n);
    } else {
      PaddedValue(k, n / 10);
      assert s[..|s| - 1] == Zeros(k) + ThumbnailKeys.Decimal(n / 10);
      assert s[|s| - 1] == ThumbnailKeys.Digit(n % 10);
    }
  }

  lemma {:induction false} OnlyZeros(k: nat)
    ensures k > 0 ==> DigitsValue(Zeros(k)) == Some(0)
    decreases k
  {
    if k > 1 {
      OnlyZeros(k - 1);
      assert Zeros(k)[..k - 1] == Zeros(k - 1);
    }
  }

  function FileName(zeros: nat, version: nat, name: string): string {
    Zeros(zeros) + ThumbnailKeys.Decimal(version) + ['_'] + name + SUFFIX
  }

  lemma FileNameCuts(zeros: nat, version: nat, name: string)
    ensures var n := FileName(zeros, version, name);
            && |n| >= |SUFFIX| && n[|n| - |SUFFIX|..] == SUFFIX
            && n[..|n| - |SUFFIX|] == Zeros(zeros) + ThumbnailKeys.Decimal(version) + ['_'] + name
  {
  }

  lemma {:induction false} CutsAtFirst(a: string, sep: char, b: string)
    requires sep !in a
    ensures CutAt(a + [sep] + b, sep) == Some((a, b))
  {
    var s := a + [sep] + b;
    if a == "" {
      assert s[1..] == b;
    } else {
      CutsAtFirst(a[1..], sep, b);
      assert s[1..] == a[1..] + [sep] + b;
      assert [s[0]] + a[1..] == a;
    }
  }

  lemma PaddedInt(zeros: nat, version: nat)
    requires version < TWO_TO_63
    ensures ParseInt(Zeros(zeros) + ThumbnailKeys.Decimal(version)) == Some(version)
  {
    PaddedValue(zeros, version);
    hide DigitsValue;
    var s := Zeros(zeros) + ThumbnailKeys.Decimal(version);
    assert s[0] in s && IsDigit(s[0]);
  }

  /** A file named with a version, however wide, an underscore and a name is that migration, with the checksum of
      its body; version 0 is none. */
  lemma NamedFileLoads(zeros: nat, version: nat, name: string, checksum: string)
    requires version < TWO_TO_63
    ensures var f := File(FileName(zeros, version, name), false, checksum);
            IsMigrationFile(f) && Parse(f) == if version > 0 then Some(Migration(version, name, checksum)) else None
  {
    var prefix := Zeros(zeros) + ThumbnailKeys.Decimal(version);
    ThumbnailKeys.DecimalReadsBack(version);
    PaddedInt(zeros, version);
    FileNameCuts(zeros, version, name);
    CutsAtFirst(prefix, '_', name);
    hide CutAt, ParseInt, FileName, ThumbnailKeys.Decimal;
  }

  /** And nothing else loads: what loads is a positive number, the first underscore, and the name it gets. */
  lemma LoadedIsNamed(f: File)
    requires IsMigrationFile(f) && Parse(f).Some?
    ensures var m := Parse(f).value;
            && m.version > 0 && m.checksum == f.checksum
            && exists prefix :: '_' !in prefix && ParseInt(prefix) == Some(m.version) && f.name == prefix + ['_'] + m.name + SUFFIX
  {
    var base := f.name[..|f.name| - |SUFFIX|];
    var prefix := CutAt(base, '_').value.0;
    hide CutAt, ParseInt;
    assert f.name == base + SUFFIX;
  }

  /** Exactly what is a number: digits with at most one sign before them, of a value that fits in 64 bits. */
  lemma IntsAreDigits(s: string)
    ensures var digits := if s != "" && (s[0] == '-' || s[0] == '+') then s[1..] else s;
            ParseInt(s).Some? <==> digits != "" && (forall c :: c in digits ==> IsDigit(c))
                                   && DigitsValue(digits).Some?
                                   && -0x8000_0000_0000_0000 <= Signed(s, DigitsValue(digits).value) < 0x8000_0000_0000_0000
    ensures ParseInt(s).Some? ==>
              var digits := if s[0] == '-' || s[0] == '+' then s[1..] else s;
              DigitsValue(digits).Some? && ParseInt(s).value == Signed(s, DigitsValue(digits).value)
  {
  }

  function Signed(s: string, v: nat): int {
    if s != "" && s[0] == '-' then -(v as int) else v
  }

  predicate Sorted(ms: seq<Migration>) {
    forall i, j :: 0 <= i < j < |ms| ==> ms[i].version < ms[j].version
  }

  /** A list whose versions are distinct has one sorting. */
  lemma {:induction false} SortingIsUnique(a: seq<Migration>, b: seq<Migration>)
    requires Sorted(a) && Sorted(b) && multiset(a) == multiset(b)
    ensures a == b
  {
    assert |multiset(a)| == |a| && |multiset(b)| == |b|;
    if a != [] {
      SameFirst(a, b);
      assert a == [a[0]] + a[1..] && b == [b[0]] + b[1..];
      assert multiset(a[1..]) == multiset(a) - multiset{a[0]};
      assert multiset(b[1..]) == multiset(b) - multiset{b[0]};
      SortingIsUnique(a[1..], b[1..]);
    }
  }

  lemma SameFirst(a: seq<Migration>, b: seq<Migration>)
    requires Sorted(a) && Sorted(b) && multiset(a) == multiset(b) && a != [] && b != []
    ensures a[0] == b[0]
  {
    assert a[0] in multiset(b) && b[0] in multiset(a);
    var i :| 0 <= i < |b| && b[i] == a[0];
    var j :| 0 <= j < |a| && a[j] == b[0];
  }

  /** The parsed migrations of the files that are migrations, in listing order; None when one does not parse. */
  function ParseAll(files: seq<File>): Option<seq<Migration>>
    decreases |files|
  {
    if files == [] then Some([])
    else
      var f := files[|files| - 1];
      match ParseAll(files[..|files| - 1])
      case None => None
      case Some(ms) => if !IsMigrationFile(f) then Some(ms) else if Parse(f).None? then None else Some(ms + [Parse(f).value])
  }

  predicate DistinctVersions(ms: seq<Migration>) {
    forall i, j :: 0 <= i < j < |ms| ==> ms[i].version != ms[j].version
  }

  /** slices.SortFunc: insertion, which is one of the sorts that agree here. */
  method InsertSorted(ms: seq<Migration>, m: Migration) returns (r: seq<Migration>)
    requires Sorted(ms) && forall i :: 0 <= i < |ms| ==> ms[i].version != m.version
    ensures Sorted(r) && multiset(r) == multiset(ms) + multiset{m}
  {
    var i := 0;
    while i < |ms| && ms[i].version < m.version
      invariant 0 <= i <= |ms| && forall j :: 0 <= j < i ==> ms[j].version < m.version
    {
      i := i + 1;
    }
    r := ms[..i] + [m] + ms[i..];
    assert ms == ms[..i] + ms[i..];
  }

  /** The first n entries load. */
  ghost predicate GoodUpTo(files: seq<File>, n: int) {
    0 <= n <= |files| && ParseAll(files[..n]).Some? && DistinctVersions(ParseAll(files[..n]).value)
  }

  /** The entry has a version that one before it has. */
  ghost predicate Repeats(files: seq<File>, i: nat, version: int)
    requires GoodUpTo(files, i) && i < |files|
  {
    && IsMigrationFile(files[i]) && Parse(files[i]).Some? && Parse(files[i]).value.version == version
    && exists j :: 0 <= j < |ParseAll(files[..i]).value| && ParseAll(files[..i]).value[j].version == version
  }

  /** Reads the files in listing order and sorts on the parsed version. */
  method LoadMigrations(files: seq<File>) returns (r: Loaded)
    ensures r.Loaded? <==> ParseAll(files).Some? && DistinctVersions(ParseAll(files).value)
    ensures r.Loaded? ==> Sorted(r.migrations) && multiset(r.migrations) == multiset(ParseAll(files).value)
    ensures r.Malformed? ==> ParseAll(files).None?
    ensures r.Malformed? ==> exists i :: GoodUpTo(files, i) && i < |files| && files[i].name == r.file
                                         && IsMigrationFile(files[i]) && Parse(files[i]).None?
    ensures r.Duplicate? ==> exists i :: GoodUpTo(files, i) && i < |files| && Repeats(files, i, r.version)
  {
    hide Parse, IsMigrationFile;
    var listed: seq<Migration> := [];
    var sorted: seq<Migration> := [];
    var seen: set<int> := {};
    var i := 0;
    while i < |files|
      invariant 0 <= i <= |files| && ParseAll(files[..i]) == Some(listed)
      invariant DistinctVersions(listed) && seen == set m | m in listed :: m.version
      invariant Sorted(sorted) && multiset(sorted) == multiset(listed)
    {
      assert files[..i + 1][..i] == files[..i];
      var f := files[i];
      i := i + 1;
      if IsMigrationFile(f) {
        var parsed := Parse(f);
        assert GoodUpTo(files, i - 1);
        if parsed.None? {
          MalformedStays(files, i);
          return Malformed(f.name);
        }
        var m := parsed.value;
        if m.version in seen {
          var j :| 0 <= j < |listed| && listed[j].version == m.version;
          assert (listed + [m])[j].version == (listed + [m])[|listed|].version;
          DuplicateStays(files, i);
          return Duplicate(m.version);
        }
        forall j | 0 <= j < |sorted| ensures sorted[j].version != m.version {
          assert sorted[j] in multiset(sorted);
          assert sorted[j] in listed;
        }
        sorted := InsertSorted(sorted, m);
        listed, seen := listed + [m], seen + {m.version};
      }
    }
    assert files[..i] == files;
    return Loaded(sorted);
  }

  lemma {:induction false} MalformedStays(files: seq<File>, n: nat)
    requires n <= |files| && ParseAll(files[..n]).None?
    ensures ParseAll(files).None?
    decreases |files|
  {
    if n == |files| {
      assert files[..n] == files;
    } else {
      assert files[..|files| - 1][..n] == files[..n];
      MalformedStays(files[..|files| - 1], n);
    }
  }

  lemma {:induction false} DuplicateStays(files: seq<File>, n: nat)
    requires n <= |files| && ParseAll(files[..n]).Some? && !DistinctVersions(ParseAll(files[..n]).value)
    ensures ParseAll(files).None? || !DistinctVersions(ParseAll(files).value)
    decreases |files|
  {
    if n == |files| {
      assert files[..n] == files;
    } else {
      assert files[..|files| - 1][..n] == files[..n];
      DuplicateStays(files[..|files| - 1], n);
      if ParseAll(files).Some? {
        var before := ParseAll(files[..|files| - 1]).value;
        var i, j :| 0 <= i < j < |before| && before[i].version == before[j].version;
        assert ParseAll(files).value[i] == before[i] && ParseAll(files).value[j] == before[j];
      }
    }
  }

  // ---- applying them ----

  /** schema_migrations, which may not exist yet, and the versions whose bodies were committed, in order. */
  datatype Schema = Schema(table: Option<map<int, string>>, log: seq<int>)

  const NO_SCHEMA := Schema(None, [])

  function Recorded(s: Schema): map<int, string> {
    match s.table
    case None => map[]
    case Some(t) => t
  }

  /** Where a run is stopped: a migration that fails or is never reached by a commit, or one whose commit
      lands and is reported lost. */
  datatype Stop = Never | Fails(version: int) | Lands(version: int)

  datatype Outcome = Finished | Stopped | Drifted(version: int)

  datatype Ran = Ran(schema: Schema, run: seq<int>, outcome: Outcome)

  function Commit(s: Schema, m: Migration): Schema {
    Schema(Some(Recorded(s)[m.version := m.checksum]), s.log + [m.version])
  }

  /** The loop of Up over the migrations that are left; applied is what it read before it began. */
  function Apply(ms: seq<Migration>, applied: map<int, string>, s: Schema, run: seq<int>, stop: Stop): Ran
    decreases |ms|
  {
    if ms == [] then Ran(s, run, Finished)
    else
      var m := ms[0];
      if m.version in applied then
        if applied[m.version] != m.checksum then Ran(s, run, Drifted(m.version)) else Apply(ms[1..], applied, s, run, stop)
      else if stop == Fails(m.version) then Ran(s, run, Stopped)
      else if stop == Lands(m.version) then Ran(Commit(s, m), run, Stopped)
      else Apply(ms[1..], applied, Commit(s, m), run + [m.version], stop)
  }

  /** Up creates the table if there is none. */
  function Up(ms: seq<Migration>, s: Schema, stop: Stop): Ran {
    Apply(ms, Recorded(s), s.(table := Some(Recorded(s))), [], stop)
  }

  function Versions(ms: seq<Migration>): seq<int>
    decreases |ms|
  {
    if ms == [] then [] else Versions(ms[..|ms| - 1]) + [ms[|ms| - 1].version]
  }

  /** Exactly the first k migrations are recorded, with their checksums, and each body was committed once. */
  ghost predicate PrefixApplied(ms: seq<Migration>, k: nat, s: Schema) {
    && k <= |ms| && s.log == Versions(ms[..k])
    && (forall v :: v in Recorded(s) ==> exists i :: 0 <= i < k && ms[i].version == v)
    && (forall i :: 0 <= i < k ==> ms[i].version in Recorded(s) && Recorded(s)[ms[i].version] == ms[i].checksum)
  }

  lemma VersionsNext(ms: seq<Migration>, k: nat)
    requires k < |ms|
    ensures Versions(ms[..k + 1]) == Versions(ms[..k]) + [ms[k].version]
  {
    assert ms[..k + 1][..k] == ms[..k];
  }

  lemma CommitNext(ms: seq<Migration>, k: nat, s: Schema)
    requires Sorted(ms) && PrefixApplied(ms, k, s) && k < |ms|
    ensures PrefixApplied(ms, k + 1, Commit(s, ms[k]))
  {
    VersionsNext(ms, k);
    var next := Commit(s, ms[k]);
    forall v | v in Recorded(next) ensures exists i :: 0 <= i < k + 1 && ms[i].version == v {
      if v == ms[k].version {
        assert 0 <= k < k + 1 && ms[k].version == v;
      } else {
        var i :| 0 <= i < k && ms[i].version == v;
        assert 0 <= i < k + 1 && ms[i].version == v;
      }
    }
  }

  /** A run that only adds to the log what it reports, but for a commit whose reply was lost. */
  predicate Logs(before: Schema, run: seq<int>, r: Ran, stop: Stop) {
    && run <= r.run
    && r.schema.log == before.log + r.run[|run|..] + (if r.outcome == Stopped && stop.Lands? then [stop.version] else [])
  }

  ghost predicate SomePrefix(ms: seq<Migration>, s: Schema) {
    exists k: nat :: PrefixApplied(ms, k, s)
  }

  /** The loop from migration i on, when k were applied as it began. */
  lemma {:induction false} ApplyKeepsPrefix(
      ms: seq<Migration>, applied: map<int, string>, i: nat, k: nat, s: Schema, run: seq<int>, stop: Stop)
    requires Sorted(ms) && i <= |ms| && k <= |ms| && PrefixApplied(ms, if i < k then k else i, s)
    requires forall j :: 0 <= j < |ms| ==> (ms[j].version in applied <==> j < k)
    requires forall j :: 0 <= j < k ==> applied[ms[j].version] == ms[j].checksum
    ensures var r := Apply(ms[i..], applied, s, run, stop);
            && !r.outcome.Drifted? && SomePrefix(ms, r.schema) && Logs(s, run, r, stop)
            && (r.outcome == Finished ==> PrefixApplied(ms, |ms|, r.schema))
    decreases |ms| - i
  {
    hide PrefixApplied, SomePrefix, Commit, Recorded;
    if i == |ms| {
      IsSomePrefix(ms, |ms|, s);
    } else {
      assert ms[i..][1..] == ms[i + 1..] && ms[i..][0] == ms[i];
      if i < k {
        assert Apply(ms[i..], applied, s, run, stop) == Apply(ms[i + 1..], applied, s, run, stop);
        hide Apply;
        ApplyKeepsPrefix(ms, applied, i + 1, k, s, run, stop);
      } else {
        CommitNext(ms, i, s);
        IsSomePrefix(ms, i, s);
        IsSomePrefix(ms, i + 1, Commit(s, ms[i]));
        CommitLogs(s, ms[i]);
        if stop != Fails(ms[i].version) && stop != Lands(ms[i].version) {
          var more := run + [ms[i].version];
          assert Apply(ms[i..], applied, s, run, stop) == Apply(ms[i + 1..], applied, Commit(s, ms[i]), more, stop);
          hide Apply;
          ApplyKeepsPrefix(ms, applied, i + 1, k, Commit(s, ms[i]), more, stop);
          var r := Apply(ms[i + 1..], applied, Commit(s, ms[i]), more, stop);
          assert r.run[|run|..] == [ms[i].version] + r.run[|more|..];
        }
      }
    }
  }

  lemma IsSomePrefix(ms: seq<Migration>, k: nat, s: Schema)
    requires PrefixApplied(ms, k, s)
    ensures SomePrefix(ms, s)
  {
  }

  lemma CommitLogs(s: Schema, m: Migration)
    ensures Commit(s, m).log == s.log + [m.version]
  {
  }

  lemma UpKeepsPrefix(ms: seq<Migration>, s: Schema, stop: Stop)
    requires Sorted(ms) && SomePrefix(ms, s)
    ensures var r := Up(ms, s, stop);
            && !r.outcome.Drifted? && SomePrefix(ms, r.schema) && Logs(s, [], r, stop)
            && (r.outcome == Finished ==> PrefixApplied(ms, |ms|, r.schema))
  {
    var k: nat :| PrefixApplied(ms, k, s);
    forall j | 0 <= j < |ms| ensures ms[j].version in Recorded(s) <==> j < k {
      if ms[j].version in Recorded(s) {
        var i :| 0 <= i < k && ms[i].version == ms[j].version;
      }
    }
    var begun := s.(table := Some(Recorded(s)));
    assert PrefixApplied(ms, k, begun);
    ApplyKeepsPrefix(ms, Recorded(s), 0, k, begun, [], stop);
    assert ms[0..] == ms;
  }

  function Runs(ms: seq<Migration>, stops: seq<Stop>): Schema
    decreases |stops|
  {
    if stops == [] then NO_SCHEMA else Up(ms, Runs(ms, stops[..|stops| - 1]), stops[|stops| - 1]).schema
  }

  /** Any number of runs, each stopped anywhere, keeps what is recorded a checksum-matching prefix of the
      version order, with each of those bodies committed exactly once and no other. */
  lemma {:induction false} AnyRunsKeepAPrefix(ms: seq<Migration>, stops: seq<Stop>)
    requires Sorted(ms)
    ensures SomePrefix(ms, Runs(ms, stops))
    decreases |stops|
  {
    if stops == [] {
      assert PrefixApplied(ms, 0, NO_SCHEMA);
    } else {
      AnyRunsKeepAPrefix(ms, stops[..|stops| - 1]);
      UpKeepsPrefix(ms, Runs(ms, stops[..|stops| - 1]), stops[|stops| - 1]);
    }
  }

  /** And a run that is not stopped finishes the job. */
  lemma UnstoppedRunFinishes(ms: seq<Migration>, stops: seq<Stop>)
    requires Sorted(ms)
    ensures var r := Up(ms, Runs(ms, stops), Never);
            r.outcome == Finished && PrefixApplied(ms, |ms|, r.schema)
  {
    AnyRunsKeepAPrefix(ms, stops);
    UpKeepsPrefix(ms, Runs(ms, stops), Never);
    NeverStops(ms, Recorded(Runs(ms, stops)), Runs(ms, stops).(table := Some(Recorded(Runs(ms, stops)))), []);
  }

  lemma {:induction false} NeverStops(ms: seq<Migration>, applied: map<int, string>, s: Schema, run: seq<int>)
    ensures Apply(ms, applied, s, run, Never).outcome != Stopped
    decreases |ms|
  {
    if ms != [] {
      NeverStops(ms[1..], applied, s, run);
      NeverStops(ms[1..], applied, Commit(s, ms[0]), run + [ms[0].version]);
    }
  }

  // ---- status ----

  datatype Status = Status(migration: Migration, applied: bool, drifted: bool)

  function StatusOf(m: Migration, applied: map<int, string>): Status {
    Status(m, m.version in applied, m.version in applied && applied[m.version] != m.checksum)
  }

  predicate UpToDate(statuses: seq<Status>) {
    forall i :: 0 <= i < |statuses| ==> statuses[i].applied && !statuses[i].drifted
  }

  predicate AllMatch(ms: seq<Migration>, applied: map<int, string>) {
    forall i :: 0 <= i < |ms| ==> ms[i].version in applied && applied[ms[i].version] == ms[i].checksum
  }

  lemma {:induction false} ApplyIdleIff(ms: seq<Migration>, applied: map<int, string>, s: Schema, run: seq<int>, stop: Stop)
    ensures var r := Apply(ms, applied, s, run, stop);
            && run <= r.run
            && (r.outcome == Finished && r.run == run <==> AllMatch(ms, applied))
            && (AllMatch(ms, applied) ==> r.schema == s)
    decreases |ms|
  {
    if ms != [] {
      var m := ms[0];
      ApplyIdleIff(ms[1..], applied, s, run, stop);
      ApplyIdleIff(ms[1..], applied, Commit(s, m), run + [m.version], stop);
      assert AllMatch(ms, applied) <==> m.version in applied && applied[m.version] == m.checksum && AllMatch(ms[1..], applied) by {
        if m.version in applied && applied[m.version] == m.checksum && AllMatch(ms[1..], applied) {
          forall i | 0 <= i < |ms| ensures ms[i].version in applied && applied[ms[i].version] == ms[i].checksum {
            assert i > 0 ==> ms[i] == ms[1..][i - 1];
          }
        }
        if AllMatch(ms, applied) {
          forall i | 0 <= i < |ms[1..]| ensures ms[1..][i].version in applied && applied[ms[1..][i].version] == ms[1..][i].checksum {
            assert ms[1..][i] == ms[i + 1];
          }
        }
      }
    }
  }

  /** On any database at all, reachable or not: nothing is pending or drifted exactly when Up would succeed
      without applying anything, and then it changes nothing. */
  lemma StatusAgreesWithUp(ms: seq<Migration>, s: Schema, statuses: seq<Status>, stop: Stop)
    requires |statuses| == |ms| && forall i :: 0 <= i < |ms| ==> statuses[i] == StatusOf(ms[i], Recorded(s))
    ensures UpToDate(statuses) <==> Up(ms, s, stop).outcome == Finished && Up(ms, s, stop).run == []
    ensures UpToDate(statuses) ==> Recorded(Up(ms, s, stop).schema) == Recorded(s) && Up(ms, s, stop).schema.log == s.log
  {
    ApplyIdleIff(ms, Recorded(s), s.(table := Some(Recorded(s))), [], stop);
    assert UpToDate(statuses) <==> AllMatch(ms, Recorded(s));
  }

  // ---- the runner ----

  class Migrator {
    const migrations: seq<Migration>
    var db: Schema

    constructor (migrations: seq<Migration>, db: Schema)
      ensures this.migrations == migrations && this.db == db
    {
      this.migrations, this.db := migrations, db;
    }

    /** One transaction: the body and its record commit together or not at all. */
    method ApplyOne(m: Migration, stop: Stop) returns (ok: bool)
      modifies this
      ensures ok <==> stop != Fails(m.version) && stop != Lands(m.version)
      ensures db == if stop == Fails(m.version) then old(db) else Commit(old(db), m)
    {
      if stop == Fails(m.version) {
        return false;
      }
      db := Schema(Some(Recorded(db)[m.version := m.checksum]), db.log + [m.version]);
      return stop != Lands(m.version);
    }

    method RunUp(stop: Stop) returns (run: seq<int>, outcome: Outcome)
      modifies this
      ensures Ran(db, run, outcome) == Up(migrations, old(db), stop)
    {
      ghost var was := db;
      var applied := Recorded(db);
      db := db.(table := Some(applied));
      run := [];
      var i := 0;
      assert migrations[0..] == migrations;
      while i < |migrations|
        invariant 0 <= i <= |migrations|
        invariant Apply(migrations[i..], applied, db, run, stop) == Up(migrations, was, stop)
      {
        assert migrations[i..][1..] == migrations[i + 1..];
        var m := migrations[i];
        i := i + 1;
        if m.version in applied {
          if applied[m.version] != m.checksum {
            return run, Drifted(m.version);
          }
        } else {
          var ok := ApplyOne(m, stop);
          if !ok {
            return run, Stopped;
          }
          run := run + [m.version];
        }
      }
      outcome := Finished;
    }

    /** A database without the table is simply fully pending. */
    method ReadStatus() returns (statuses: seq<Status>)
      ensures |statuses| == |migrations|
      ensures forall i :: 0 <= i < |migrations| ==> statuses[i] == StatusOf(migrations[i], Recorded(db))
      ensures UpToDate(statuses) <==> Up(migrations, db, Never).outcome == Finished && Up(migrations, db, Never).run == []
    {
      var applied: map<int, string> := map[];
      if db.table.Some? {
        applied := db.table.value;
      }
      statuses := [];
      for i := 0 to |migrations|
        invariant |statuses| == i && forall j :: 0 <= j < i ==> statuses[j] == StatusOf(migrations[j], applied)
      {
        var m := migrations[i];
        var known := m.version in applied;
        statuses := statuses + [Status(m, known, known && applied[m.version] != m.checksum)];
      }
      StatusAgreesWithUp(migrations, db, statuses, Never);
    }
  }
}
