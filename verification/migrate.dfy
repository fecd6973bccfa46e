/**
 migrate.php: run, in file-name order, every migration file whose name the
 migrations table has not recorded yet; record each one that succeeds under
 a single new batch number, and stop at the first file whose class is
 missing or whose statement fails.

 The files are named as the directory listing gives them (`X.php`, all in
 the migrations directory, so ordering their paths orders their names).
 Which class a file defines and whether its statement succeeds are
 parameters; the database is the migrations table, one record per row.
 */
module Migrate {
  import opened Php
  import opened Text
  import opened Wrappers

  /** A row of the migrations table. */
  datatype Record = Record(migration: string, batch: int)

  /** Why a run ended: every pending file ran, or one file stopped it (exit(1)). */
  datatype Stop =
    | Completed
    | ClassMissing(className: string, file: string)
    | Failed(migration: string)

  /** The migrations table after a run, and how the run ended. */
  datatype Run = Run(table: seq<Record>, stop: Stop)

  const SUFFIX: string := ".php"

  // ----- sort($migrationFiles) -----

  /*
   PHP's sort compares two non-numeric strings byte by byte, and a file name
   ending in ".php" is never numeric: the order is the lexicographic one.
   */

  predicate Sorted(s: seq<string>) {
    forall i, j :: 0 <= i < j < |s| ==> StrLe(s[i], s[j])
  }

  lemma StrLeTransitive(a: string, b: string, c: string)
    requires StrLe(a, b) && StrLe(b, c)
    ensures StrLe(a, c)
  {
    if a != b && b != c {
      StrLtTransitive(a, b, c);
    }
  }

  /** Insertion of one name into a sorted list. */
  function Insert(x: string, s: seq<string>): (r: seq<string>)
    ensures multiset(r) == multiset(s) + multiset{x}
  {
    if |s| == 0 then [x]
    else if StrLe(x, s[0]) then [x] + s
    else
      assert s == [s[0]] + s[1..];
      [s[0]] + Insert(x, s[1..])
  }

  /** Every element of `Insert(x, s)` is `x` or an element of `s`. */
  lemma InsertElements(x: string, s: seq<string>, k: nat)
    requires k < |Insert(x, s)|
    ensures Insert(x, s)[k] == x || Insert(x, s)[k] in s
  {
    assert Insert(x, s)[k] in multiset(Insert(x, s));
  }

  lemma {:induction false} InsertSorted(x: string, s: seq<string>)
    requires Sorted(s)
    ensures Sorted(Insert(x, s))
  {
    if |s| > 0 {
      if StrLe(x, s[0]) {
        forall j | 0 <= j < |s| ensures StrLe(x, s[j]) {
          StrLeTransitive(x, s[0], s[j]);
        }
      } else {
        StrLtTrichotomy(x, s[0]);
        InsertSorted(x, s[1..]);
        var rest := Insert(x, s[1..]);
        forall k | 0 <= k < |rest| ensures StrLe(s[0], rest[k]) {
          InsertElements(x, s[1..], k);
        }
        assert Insert(x, s) == [s[0]] + rest;
      }
    }
  }

  /** `sort($migrationFiles)`: the files in lexicographic order. */
  function SortFiles(files: seq<string>): (r: seq<string>)
    ensures multiset(r) == multiset(files)
  {
    if |files| == 0 then []
    else
      assert files == [files[0]] + files[1..];
      Insert(files[0], SortFiles(files[1..]))
  }

  /** The sorted list is in order and holds the same files. */
  lemma {:induction false} SortFilesSorts(files: seq<string>)
    ensures Sorted(SortFiles(files)) && multiset(SortFiles(files)) == multiset(files)
  {
    if |files| > 0 {
      SortFilesSorts(files[1..]);
      InsertSorted(files[0], SortFiles(files[1..]));
    }
  }

  /** Paths that share a directory are ordered as the names in it. */
  lemma {:induction false} CommonPrefixOrder(dir: string, a: string, b: string)
    ensures StrLt(dir + a, dir + b) <==> StrLt(a, b)
  {
    if |dir| > 0 {
      assert (dir + a)[0] == (dir + b)[0];
      assert (dir + a)[1..] == dir[1..] + a && (dir + b)[1..] == dir[1..] + b;
      CommonPrefixOrder(dir[1..], a, b);
    } else {
      assert dir + a == a && dir + b == b;
    }
  }

  // ----- basename($file, '.php') and the class name -----

  /** `basename($file, '.php')`: the name without the suffix, when it ends with it and is not only the suffix. */
  function MigrationName(file: string): (name: string)
    ensures |file| > |SUFFIX| && file[|file| - |SUFFIX|..] == SUFFIX ==> name + SUFFIX == file
    ensures !(|file| > |SUFFIX| && file[|file| - |SUFFIX|..] == SUFFIX) ==> name == file
  {
    if |file| > |SUFFIX| && file[|file| - |SUFFIX|..] == SUFFIX then file[..|file| - |SUFFIX|] else file
  }

  /** `str_replace('_', ' ', $name)`. */
  function Spaced(s: string): (r: string)
    ensures |r| == |s|
    ensures forall i :: 0 <= i < |s| ==> r[i] == if s[i] == '_' then ' ' else s[i]
  {
    seq(|s|, i requires 0 <= i < |s| => if s[i] == '_' then ' ' else s[i])
  }

  /** The characters after which ucwords starts a word: space, tab, CR, LF, form feed and vertical tab. */
  predicate WordDelimiter(c: char) {
    c == ' ' || c == '\t' || c == '\r' || c == '\n' || c == '\U{000C}' || c == '\U{000B}'
  }

  /** Character `i` after ucwords: upper-cased when it starts a word, that is, comes first or after a delimiter. */
  function UcChar(s: string, i: nat): char
    requires i < |s|
  {
    if i == 0 || WordDelimiter(s[i - 1]) then UpperChar(s[i]) else s[i]
  }

  /** `ucwords($s)`: the first character and every character after a delimiter upper-cased. */
  function UcWords(s: string): (r: string)
    ensures |r| == |s|
    ensures forall i :: 0 <= i < |s| ==> r[i] == UcChar(s, i)
  {
    seq(|s|, i requires 0 <= i < |s| => UcChar(s, i))
  }

  /** `str_replace(' ', '', $s)`. */
  function WithoutSpaces(s: string): (r: string)
    ensures ' ' !in r
    ensures forall c :: c != ' ' ==> multiset(r)[c] == multiset(s)[c]
  {
    if |s| == 0 then ""
    else
      assert s == [s[0]] + s[1..];
      (if s[0] == ' ' then "" else [s[0]]) + WithoutSpaces(s[1..])
  }

  /** The class a migration file must define: its name's words, capitalised and run together. */
  function ClassName(name: string): string {
    WithoutSpaces(UcWords(Spaced(name)))
  }

  /** A derived class name never holds an underscore or a space. */
  lemma ClassNameHasNoSeparators(name: string)
    ensures '_' !in ClassName(name) && ' ' !in ClassName(name)
  {
    var u := UcWords(Spaced(name));
    assert '_' !in u by {
      forall i | 0 <= i < |u| ensures u[i] != '_' {
      }
    }
    assert multiset(u)['_'] == 0;
  }

  /** A word with its first letter upper-cased. */
  function Capitalized(w: string): (r: string)
    ensures |r| == |w|
  {
    if |w| == 0 then "" else [UpperChar(w[0])] + w[1..]
  }

  /** Words joined with underscores, as the migration files are named. */
  function Snake(ws: seq<string>): string
    requires |ws| > 0
  {
    if |ws| == 1 then ws[0] else ws[0] + "_" + Snake(ws[1..])
  }

  /** What a word of a file name may not contain: an underscore or anything ucwords splits on. */
  predicate PlainWord(w: string) {
    forall i :: 0 <= i < |w| ==> w[i] != '_' && !WordDelimiter(w[i])
  }

  /** Concatenation of the capitalised words. */
  function Camel(ws: seq<string>): string {
    if |ws| == 0 then "" else Capitalized(ws[0]) + Camel(ws[1..])
  }

  /** ucwords treats the two sides of a space separately. */
  lemma UcWordsAroundSpace(a: string, b: string)
    ensures UcWords(a + " " + b) == UcWords(a) + " " + UcWords(b)
  {
    var s := a + " " + b;
    var r := UcWords(a) + " " + UcWords(b);
    forall i | 0 <= i < |s| ensures UcWords(s)[i] == r[i] {
      if i > |a| {
        assert s[i] == b[i - |a| - 1];
        if i > |a| + 1 {
          assert s[i - 1] == b[i - |a| - 2];
        }
      }
    }
  }

  /** Removing the spaces of a concatenation removes them from each part. */
  lemma {:induction false} WithoutSpacesAppend(a: string, b: string)
    ensures WithoutSpaces(a + b) == WithoutSpaces(a) + WithoutSpaces(b)
  {
    if |a| > 0 {
      assert (a + b)[0] == a[0];
      assert (a + b)[1..] == a[1..] + b;
      WithoutSpacesAppend(a[1..], b);
    } else {
      assert a + b == b;
    }
  }

  /** A plain word becomes its capitalised self. */
  lemma PlainWordClass(w: string)
    requires PlainWord(w)
    ensures Spaced(w) == w
    ensures WithoutSpaces(UcWords(w)) == Capitalized(w)
  {
    assert UcWords(w) == Capitalized(w);
    if |w| > 0 {
      assert UpperChar(w[0]) != ' ';
    }
    NoSpaceKept(Capitalized(w));
  }

  /** A string without spaces is left as it is. */
  lemma {:induction false} NoSpaceKept(s: string)
    requires ' ' !in s
    ensures WithoutSpaces(s) == s
  {
    if |s| > 0 {
      NoSpaceKept(s[1..]);
      assert s == [s[0]] + s[1..];
    }
  }

  /**
   The class name of a file named by words joined with underscores is the
   words capitalised and run together: A_create_users_table gives
   ACreateUsersTable.
   */
  lemma {:induction false} ClassNameOfWords(ws: seq<string>)
    requires |ws| > 0 && forall i :: 0 <= i < |ws| ==> PlainWord(ws[i])
    ensures ClassName(Snake(ws)) == Camel(ws)
  {
    var w := ws[0];
    PlainWordClass(w);
    if |ws| == 1 {
      assert Camel(ws) == Capitalized(w) + Camel(ws[1..]);
    } else {
      ClassNameOfWords(ws[1..]);
      assert Snake(ws) == w + "_" + Snake(ws[1..]);
      ClassNameJoin(w, Snake(ws[1..]));
      assert Camel(ws) == Capitalized(w) + Camel(ws[1..]);
    }
  }

  /** The class name of two underscore-joined parts, the first a plain word, is the first capitalized and the second's class name. */
  lemma ClassNameJoin(w: string, rest: string)
    requires PlainWord(w)
    ensures ClassName(w + "_" + rest) == Capitalized(w) + ClassName(rest)
  {
    PlainWordClass(w);
    SpacedJoin(w, rest);
    UcWordsAroundSpace(w, Spaced(rest));
    SpaceDropped(UcWords(w), UcWords(Spaced(rest)));
  }

  /** Removing the spaces of two parts joined by a space joins the parts without theirs. */
  lemma SpaceDropped(u: string, v: string)
    ensures WithoutSpaces(u + " " + v) == WithoutSpaces(u) + WithoutSpaces(v)
  {
    WithoutSpacesAppend(u + " ", v);
    WithoutSpacesAppend(u, " ");
    LoneSpaceDropped();
    assert WithoutSpaces(u) + "" == WithoutSpaces(u);
  }

  /** A lone space leaves nothing. */
  lemma LoneSpaceDropped()
    ensures WithoutSpaces(" ") == ""
  {
    assert " "[1..] == "";
  }

  /** Underscores between two words become spaces, the words themselves only where they hold underscores. */
  lemma SpacedJoin(w: string, rest: string)
    requires PlainWord(w)
    ensures Spaced(w + "_" + rest) == w + " " + Spaced(rest)
  {
    var s := w + "_" + rest;
    var t := w + " " + Spaced(rest);
    forall i | 0 <= i < |s| ensures Spaced(s)[i] == t[i] {
      if i > |w| {
        assert s[i] == rest[i - |w| - 1];
      }
    }
  }

  lemma UsersTableClass()
    ensures ClassName("A_create_users_table") == "ACreateUsersTable"
  {
    var ws := ["A", "create", "users", "table"];
    assert Snake(ws) == "A_create_users_table";
    ClassNameOfWords(ws);
    assert Camel(ws) == "ACreateUsersTable";
  }

  // ----- the batch number -----

  /** `SELECT MAX(batch) FROM migrations` on a non-empty table. */
  function MaxBatch(table: seq<Record>): (m: int)
    requires |table| > 0
    ensures forall k :: 0 <= k < |table| ==> table[k].batch <= m
    ensures exists k :: 0 <= k < |table| && table[k].batch == m
  {
    if |table| == 1 then table[0].batch
    else
      var m := MaxBatch(table[1..]);
      assert forall k :: 1 <= k < |table| ==> table[k] == table[1..][k - 1];
      if table[0].batch >= m then table[0].batch else m
  }

  /** `$lastBatch ? $lastBatch + 1 : 1`: MAX(batch) is NULL on an empty table, and a maximum of 0 is falsy too. */
  function NextBatch(table: seq<Record>): (b: int) {
    var last := if |table| == 0 then Null else Int(MaxBatch(table));
    if Truthy(last) then last.i + 1 else 1
  }

  /**
   The new batch is one past the largest recorded batch, or 1 on an empty
   table: later than every recorded batch, and the next after the latest.
   */
  lemma NextBatchFollows(table: seq<Record>)
    ensures |table| == 0 ==> NextBatch(table) == 1
    ensures |table| > 0 ==> NextBatch(table) == MaxBatch(table) + 1
    ensures forall k :: 0 <= k < |table| ==> table[k].batch < NextBatch(table)
  {
  }

  // ----- which files run -----

  /** The `migration` column, as `fetchAll(PDO::FETCH_COLUMN)` returns it. */
  function Recorded(table: seq<Record>): (names: seq<string>)
    ensures |names| == |table|
    ensures forall k :: 0 <= k < |table| ==> names[k] == table[k].migration
  {
    seq(|table|, k requires 0 <= k < |table| => table[k].migration)
  }

  /** `in_array($migrationName, $runMigrations)`, with its loose comparison. */
  predicate Ran(file: string, recorded: seq<string>) {
    InArrayLoose(Str(MigrationName(file)), StrList(recorded))
  }

  /** The files, in the given order, whose name is not loosely among the recorded ones. */
  function Unrecorded(files: seq<string>, recorded: seq<string>): (r: seq<string>)
    ensures |r| <= |files|
    ensures forall k :: 0 <= k < |r| ==> r[k] in files && !Ran(r[k], recorded)
  {
    if |files| == 0 then []
    else (if Ran(files[0], recorded) then [] else [files[0]]) + Unrecorded(files[1..], recorded)
  }

  /** One step of the filter from position `i`. */
  lemma UnrecordedFrom(files: seq<string>, recorded: seq<string>, i: nat)
    requires i < |files|
    ensures Unrecorded(files[i..], recorded)
            == (if Ran(files[i], recorded) then [] else [files[i]]) + Unrecorded(files[i + 1..], recorded)
  {
    assert files[i..][1..] == files[i + 1..];
  }

  /** The migrations a run starts: the sorted files not yet recorded. */
  function Pending(files: seq<string>, table: seq<Record>): seq<string> {
    Unrecorded(SortFiles(files), Recorded(table))
  }

  /** A name that starts with a letter is loosely recorded exactly when it is recorded. */
  lemma LetterLedRan(file: string, recorded: seq<string>)
    requires |MigrationName(file)| > 0 && IsAsciiLetter(MigrationName(file)[0])
    ensures Ran(file, recorded) <==> MigrationName(file) in recorded
  {
    var name := MigrationName(file);
    LetterLedNotInteger(name);
    if name in recorded {
      var k :| 0 <= k < |recorded| && recorded[k] == name;
      assert LooseEq(Str(name), StrList(recorded)[k]);
    }
  }

  /** Keeping some of a sorted list keeps it sorted. */
  lemma {:induction false} UnrecordedSorted(files: seq<string>, recorded: seq<string>)
    requires Sorted(files)
    ensures Sorted(Unrecorded(files, recorded))
  {
    if |files| > 0 {
      UnrecordedSorted(files[1..], recorded);
      var rest := Unrecorded(files[1..], recorded);
      forall k | 0 <= k < |rest| ensures StrLe(files[0], rest[k]) {
        var j :| 0 <= j < |files[1..]| && files[1..][j] == rest[k];
        assert files[j + 1] == rest[k];
      }
    }
  }

  /** A file that was in the list and not recorded is kept. */
  lemma {:induction false} UnrecordedKeeps(files: seq<string>, recorded: seq<string>, f: string)
    requires f in files && !Ran(f, recorded)
    ensures f in Unrecorded(files, recorded)
  {
    if files[0] != f {
      UnrecordedKeeps(files[1..], recorded, f);
    }
  }

  /**
   The pending migrations are in file-name order, and for names that start
   with a letter they are exactly the files whose name is not recorded.
   */
  lemma PendingAreUnrecordedFiles(files: seq<string>, table: seq<Record>)
    requires forall k :: 0 <= k < |files| ==> |MigrationName(files[k])| > 0 && IsAsciiLetter(MigrationName(files[k])[0])
    ensures Sorted(Pending(files, table))
    ensures forall f :: f in Pending(files, table) <==> f in files && MigrationName(f) !in Recorded(table)
  {
    var sorted := SortFiles(files);
    SortFilesSorts(files);
    UnrecordedSorted(sorted, Recorded(table));
    forall f ensures f in Pending(files, table) <==> f in files && MigrationName(f) !in Recorded(table) {
      assert f in sorted <==> f in multiset(sorted);
      assert f in files <==> f in multiset(files);
      if f in files {
        LetterLedRan(f, Recorded(table));
        if MigrationName(f) !in Recorded(table) {
          UnrecordedKeeps(sorted, Recorded(table), f);
        }
      }
    }
  }

  // ----- the run -----

  /**
   What running the pending files does: each one whose class exists and
   whose statement succeeds is recorded under `batch`, in order, and the
   first one that fails stops the run.
   */
  function Outcome(pending: seq<string>, batch: int, defines: (string, string) -> bool, succeeds: string -> bool): (seq<Record>, Stop)
  {
    if |pending| == 0 then ([], Completed)
    else
      var file := pending[0];
      var name := MigrationName(file);
      var className := ClassName(name);
      if !defines(file, className) then ([], ClassMissing(className, file))
      else if !succeeds(file) then ([], Failed(name))
      else
        var (rest, stop) := Outcome(pending[1..], batch, defines, succeeds);
        ([Record(name, batch)] + rest, stop)
  }

  /**
   A run records the pending files in order, each under the batch, as long
   as their class exists and their statement succeeds; it completes when all
   of them ran, and otherwise names the file after the last recorded one and
   what went wrong with it.
   */
  lemma {:induction false} OutcomeRecordsInOrder(pending: seq<string>, batch: int, defines: (string, string) -> bool, succeeds: string -> bool)
    ensures var r := Outcome(pending, batch, defines, succeeds);
            && |r.0| <= |pending|
            && (forall k :: 0 <= k < |r.0| ==>
                  && r.0[k] == Record(MigrationName(pending[k]), batch)
                  && defines(pending[k], ClassName(MigrationName(pending[k]))) && succeeds(pending[k]))
            && (r.1.Completed? <==> |r.0| == |pending|)
            && (r.1.ClassMissing? ==>
                  && r.1.file == pending[|r.0|]
                  && r.1.className == ClassName(MigrationName(pending[|r.0|]))
                  && !defines(pending[|r.0|], r.1.className))
            && (r.1.Failed? ==>
                  && r.1.migration == MigrationName(pending[|r.0|])
                  && defines(pending[|r.0|], ClassName(r.1.migration)) && !succeeds(pending[|r.0|]))
  {
    if |pending| > 0 {
      OutcomeRecordsInOrder(pending[1..], batch, defines, succeeds);
      var r := Outcome(pending, batch, defines, succeeds);
      var o := Outcome(pending[1..], batch, defines, succeeds);
      var file := pending[0];
      if defines(file, ClassName(MigrationName(file))) && succeeds(file) {
        assert r.0 == [Record(MigrationName(file), batch)] + o.0 && r.1 == o.1;
        forall k | 1 <= k < |r.0| ensures r.0[k] == o.0[k - 1] && pending[k] == pending[1..][k - 1] {
        }
      }
    }
  }

  /** Running a list that starts with `file`: stop at it, or record it and run the rest. */
  lemma OutcomeCons(file: string, rest: seq<string>, batch: int, defines: (string, string) -> bool, succeeds: string -> bool)
    ensures var name := MigrationName(file);
            var r := Outcome([file] + rest, batch, defines, succeeds);
            var o := Outcome(rest, batch, defines, succeeds);
            && (!defines(file, ClassName(name)) ==> r == ([], ClassMissing(ClassName(name), file)))
            && (defines(file, ClassName(name)) && !succeeds(file) ==> r == ([], Failed(name)))
            && (defines(file, ClassName(name)) && succeeds(file) ==> r == ([Record(name, batch)] + o.0, o.1))
  {
    assert ([file] + rest)[0] == file && ([file] + rest)[1..] == rest;
  }

  /** What running the sorted files from position `i` on records, and where it stops. */
  function Remaining(sorted: seq<string>, recorded: seq<string>, i: nat, batch: int,
                     defines: (string, string) -> bool, succeeds: string -> bool): (seq<Record>, Stop)
    requires i <= |sorted|
  {
    Outcome(Unrecorded(sorted[i..], recorded), batch, defines, succeeds)
  }

  /** One iteration of runMigrations' loop: skip a recorded file, stop at a failing one, or record it and go on. */
  lemma RunStep(sorted: seq<string>, recorded: seq<string>, i: nat, batch: int,
                defines: (string, string) -> bool, succeeds: string -> bool)
    requires i < |sorted|
    ensures var file := sorted[i];
            var name := MigrationName(file);
            var here := Remaining(sorted, recorded, i, batch, defines, succeeds);
            var next := Remaining(sorted, recorded, i + 1, batch, defines, succeeds);
            && (Ran(file, recorded) ==> here == next)
            && (!Ran(file, recorded) && !defines(file, ClassName(name)) ==> here == ([], ClassMissing(ClassName(name), file)))
            && (!Ran(file, recorded) && defines(file, ClassName(name)) && !succeeds(file) ==> here == ([], Failed(name)))
            && (!Ran(file, recorded) && defines(file, ClassName(name)) && succeeds(file) ==>
                  here == ([Record(name, batch)] + next.0, next.1))
  {
    var file := sorted[i];
    var rest := Unrecorded(sorted[i + 1..], recorded);
    UnrecordedFrom(sorted, recorded, i);
    if Ran(file, recorded) {
      assert Unrecorded(sorted[i..], recorded) == rest;
    } else {
      assert Unrecorded(sorted[i..], recorded) == [file] + rest;
      OutcomeCons(file, rest, batch, defines, succeeds);
    }
  }

  /** From the first file on, the run is that of every unrecorded file. */
  lemma RemainingFromStart(sorted: seq<string>, recorded: seq<string>, batch: int,
                           defines: (string, string) -> bool, succeeds: string -> bool)
    ensures Remaining(sorted, recorded, 0, batch, defines, succeeds) == Outcome(Unrecorded(sorted, recorded), batch, defines, succeeds)
  {
    assert sorted[0..] == sorted;
  }

  /** Past the last file, nothing is left to record and the run completes. */
  lemma RemainingAtEnd(sorted: seq<string>, recorded: seq<string>, batch: int,
                       defines: (string, string) -> bool, succeeds: string -> bool)
    ensures Remaining(sorted, recorded, |sorted|, batch, defines, succeeds) == ([], Completed)
  {
    assert sorted[|sorted|..] == [];
  }

  /**
   The body of runMigrations' loop for the file at `i`, after the records
   `added` so far: nothing for a recorded file, one more record, or the
   failure that stops the run. What is recorded from `i` on is what is
   recorded from `i + 1` on, after the new records.
   */
  method RunOne(sorted: seq<string>, recorded: seq<string>, i: nat, batch: int,
                defines: (string, string) -> bool, succeeds: string -> bool, added: seq<Record>)
    returns (added': seq<Record>, stop: Option<Stop>)
    requires i < |sorted|
    ensures stop.Some? ==> added' == added && Remaining(sorted, recorded, i, batch, defines, succeeds) == ([], stop.value)
    ensures stop.Some? ==> added + Remaining(sorted, recorded, i, batch, defines, succeeds).0 == added
    ensures stop.None? ==>
              && added + Remaining(sorted, recorded, i, batch, defines, succeeds).0
                 == added' + Remaining(sorted, recorded, i + 1, batch, defines, succeeds).0
              && Remaining(sorted, recorded, i, batch, defines, succeeds).1 == Remaining(sorted, recorded, i + 1, batch, defines, succeeds).1
  {
    var file := sorted[i];
    var name := MigrationName(file);
    RunStep(sorted, recorded, i, batch, defines, succeeds);
    if InArrayLoose(Str(name), StrList(recorded)) {
      assert Ran(file, recorded);
      return added, None;
    }
    assert !Ran(file, recorded);
    var className := ClassName(name);
    if !defines(file, className) {
      assert added + [] == added;
      return added, Some(ClassMissing(className, file));
    }
    if !succeeds(file) {
      assert added + [] == added;
      return added, Some(Failed(name));
    }
    ghost var next := Remaining(sorted, recorded, i + 1, batch, defines, succeeds);
    assert added + ([Record(name, batch)] + next.0) == (added + [Record(name, batch)]) + next.0;
    return added + [Record(name, batch)], None;
  }

  /**
   runMigrations: sort the files, read the recorded names and the batch
   once, then for each unrecorded file check its class, run its statement
   and record it, stopping at the first failure. The table it leaves is the
   old one followed by what Outcome records.
   */
  method RunMigrations(files: seq<string>, table: seq<Record>, defines: (string, string) -> bool, succeeds: string -> bool)
    returns (run: Run)
    ensures run.table == table + Outcome(Pending(files, table), NextBatch(table), defines, succeeds).0
    ensures run.stop == Outcome(Pending(files, table), NextBatch(table), defines, succeeds).1
  {
    var sorted := SortFiles(files);
    var recorded := Recorded(table);
    var batch := NextBatch(table);
    RemainingFromStart(sorted, recorded, batch, defines, succeeds);
    ghost var whole := Remaining(sorted, recorded, 0, batch, defines, succeeds);
    var added: seq<Record> := [];
    var i := 0;
    while i < |sorted|
      invariant 0 <= i <= |sorted|
      invariant whole.0 == added + Remaining(sorted, recorded, i, batch, defines, succeeds).0
      invariant whole.1 == Remaining(sorted, recorded, i, batch, defines, succeeds).1
    {
      var stop;
      added, stop := RunOne(sorted, recorded, i, batch, defines, succeeds, added);
      if stop.Some? {
        return Run(table + added, stop.value);
      }
      i := i + 1;
    }
    RemainingAtEnd(sorted, recorded, batch, defines, succeeds);
    assert added + [] == added;
    return Run(table + added, Completed);
  }

  /**
   A run keeps every recorded row, adds one row per migration it completed,
   all under the new batch and in file order, and completes exactly when
   every pending file ran.
   */
  lemma RunKeepsAndExtends(files: seq<string>, table: seq<Record>, defines: (string, string) -> bool, succeeds: string -> bool)
    ensures var pending := Pending(files, table);
            var (added, stop) := Outcome(pending, NextBatch(table), defines, succeeds);
            && |added| <= |pending|
            && (forall k :: 0 <= k < |added| ==> added[k].migration == MigrationName(pending[k]) && added[k].batch == NextBatch(table))
            && (forall k :: 0 <= k < |added| ==> forall j :: 0 <= j < |table| ==> table[j].batch < added[k].batch)
            && (stop.Completed? <==> |added| == |pending|)
  {
    NextBatchFollows(table);
    OutcomeRecordsInOrder(Pending(files, table), NextBatch(table), defines, succeeds);
  }
}
