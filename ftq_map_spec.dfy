/**
 What `ftq_map` (ftq_map.py) computes, written as functions: parsing the
 ftq_series_ids, grouping them by subject, session and series type, naming
 the expected files and checking them against the directory tree. The method
 in module FtqMap is proved to compute exactly `Resolve`; the lemmas here say
 what `Resolve` guarantees.

 The filesystem is a set of paths: `files` holds every path for which
 `os.path.isfile` is true.
 */
module FtqMapSpec {
  import opened Wrappers
  import opened Text
  import opened Ordering
  import opened Naming

  /** One row of `ftq_df` (ftq_map.py:48): the four parts of an identifier and the identifier itself. */
  datatype ParsedSeries = ParsedSeries(sub: string, ses: string, series: string, time: string, ftqSeriesId: string)

  /** An identifier parses when splitting it on `_` gives exactly four parts. */
  predicate WellFormed(id: string)
  {
    |Split(id, '_')| == 4
  }

  /** The four-part test is a count of underscores: exactly three. */
  lemma WellFormedIffThreeUnderscores(id: string)
    ensures WellFormed(id) <==> multiset(id)['_'] == 3
  {
    SplitCount(id, '_');
  }

  function Parse(id: string): ParsedSeries
    requires WellFormed(id)
  {
    var t := Split(id, '_');
    ParsedSeries(t[0], t[1], t[2], t[3], id)
  }

  /** A row whose four parts are the split of its own identifier. */
  predicate Consistent(r: ParsedSeries)
  {
    Split(r.ftqSeriesId, '_') == [r.sub, r.ses, r.series, r.time]
  }

  /** The rows built from the well-formed identifiers, in input order (`ftq_lst`). */
  function ParsedRows(qc: seq<string>): seq<ParsedSeries>
  {
    if qc == [] then []
    else
      var id := qc[|qc| - 1];
      ParsedRows(qc[..|qc| - 1]) + (if WellFormed(id) then [Parse(id)] else [])
  }

  /** The identifiers that do not parse, verbatim and in input order (`errors`). */
  function Malformed(qc: seq<string>): seq<string>
  {
    if qc == [] then []
    else
      var id := qc[|qc| - 1];
      Malformed(qc[..|qc| - 1]) + (if WellFormed(id) then [] else [id])
  }

  /** Identifiers that parse and whose series type has a branch in ftq_map. */
  predicate Handled(id: string)
  {
    WellFormed(id) && KindOf(Split(id, '_')[2]).Some?
  }

  /** The handled identifiers of the input, in input order. */
  function HandledOf(qc: seq<string>): seq<string>
  {
    if qc == [] then []
    else
      var id := qc[|qc| - 1];
      HandledOf(qc[..|qc| - 1]) + (if Handled(id) then [id] else [])
  }

  /**
   Parsing splits the input in two: an identifier is an error exactly when it
   does not split into four parts; every other one becomes one row whose parts
   are its split.
   */
  lemma {:induction false} MalformedMembers(qc: seq<string>)
    ensures forall x :: x in Malformed(qc) <==> x in qc && !WellFormed(x)
  {
    if qc != [] {
      var init, id := qc[..|qc| - 1], qc[|qc| - 1];
      MalformedMembers(init);
      assert qc == init + [id];
    }
  }

  lemma {:induction false} ParseCounts(qc: seq<string>)
    ensures |ParsedRows(qc)| + |Malformed(qc)| == |qc|
  {
    if qc != [] {
      ParseCounts(qc[..|qc| - 1]);
    }
  }

  lemma {:induction false} ParsedRowsFacts(qc: seq<string>)
    ensures forall r | r in ParsedRows(qc) :: Consistent(r) && WellFormed(r.ftqSeriesId) && r.ftqSeriesId in qc
  {
    if qc != [] {
      var init, id := qc[..|qc| - 1], qc[|qc| - 1];
      ParsedRowsFacts(init);
      assert qc == init + [id];
      if WellFormed(id) {
        assert ParsedRows(qc) == ParsedRows(init) + [Parse(id)];
        assert Consistent(Parse(id));
      } else {
        assert ParsedRows(qc) == ParsedRows(init);
      }
    }
  }

  lemma ParseFacts(qc: seq<string>)
    ensures forall x :: x in Malformed(qc) <==> x in qc && !WellFormed(x)
    ensures |ParsedRows(qc)| + |Malformed(qc)| == |qc|
    ensures forall r | r in ParsedRows(qc) :: Consistent(r) && WellFormed(r.ftqSeriesId) && r.ftqSeriesId in qc
  {
    MalformedMembers(qc);
    ParseCounts(qc);
    ParsedRowsFacts(qc);
  }

  /** Each handled identifier of the input, and nothing else, occurs in HandledOf as often as in the input. */
  lemma {:induction false} HandledOfCount(qc: seq<string>)
    ensures forall x :: multiset(HandledOf(qc))[x] == if Handled(x) then multiset(qc)[x] else 0
  {
    if qc != [] {
      var init := qc[..|qc| - 1];
      HandledOfCount(init);
      assert qc == init + [qc[|qc| - 1]];
    }
  }

  // ---------------------------------------------------------------------------
  // Selecting rows of the frame

  datatype Column = SubCol | SesCol | SeriesCol

  function Key(r: ParsedSeries, c: Column): string
  {
    match c
    case SubCol => r.sub
    case SesCol => r.ses
    case SeriesCol => r.series
  }

  /** One column of the frame, `df[c]`. */
  function ColumnOf(rows: seq<ParsedSeries>, c: Column): seq<string>
  {
    seq(|rows|, i requires 0 <= i < |rows| => Key(rows[i], c))
  }

  /** The rows whose column c equals v, in frame order: `df[df[c] == v]`. */
  function Select(rows: seq<ParsedSeries>, c: Column, v: string): seq<ParsedSeries>
  {
    if rows == [] then []
    else
      var r := rows[|rows| - 1];
      Select(rows[..|rows| - 1], c, v) + (if Key(r, c) == v then [r] else [])
  }

  /** The rows whose column c is one of vs, in frame order. */
  function SelectIn(rows: seq<ParsedSeries>, c: Column, vs: set<string>): seq<ParsedSeries>
  {
    if rows == [] then []
    else
      var r := rows[|rows| - 1];
      SelectIn(rows[..|rows| - 1], c, vs) + (if Key(r, c) in vs then [r] else [])
  }

  /** The identifiers of the rows of handled series types, in order. */
  function HandledIds(rows: seq<ParsedSeries>): seq<string>
  {
    if rows == [] then []
    else
      var r := rows[|rows| - 1];
      HandledIds(rows[..|rows| - 1]) + HandledRow(r)
  }

  /** A row's identifier when its series type is handled, else nothing. */
  function HandledRow(r: ParsedSeries): seq<string>
  {
    if KindOf(r.series).Some? then [r.ftqSeriesId] else []
  }

  lemma ElemsSnoc(xs: seq<string>, n: nat)
    requires 0 < n <= |xs|
    ensures Elems(xs[..n]) == Elems(xs[..n - 1]) + {xs[n - 1]}
  {
    assert xs[..n] == xs[..n - 1] + [xs[n - 1]];
  }

  lemma {:induction false} SelectMembers(rows: seq<ParsedSeries>, c: Column, v: string)
    ensures forall r :: r in Select(rows, c, v) <==> r in rows && Key(r, c) == v
  {
    if rows != [] {
      SelectMembers(rows[..|rows| - 1], c, v);
      assert rows == rows[..|rows| - 1] + [rows[|rows| - 1]];
    }
  }

  lemma {:induction false} SelectInAll(rows: seq<ParsedSeries>, c: Column, vs: set<string>)
    requires forall i | 0 <= i < |rows| :: Key(rows[i], c) in vs
    ensures SelectIn(rows, c, vs) == rows
  {
    if rows != [] {
      SelectInAll(rows[..|rows| - 1], c, vs);
      assert rows == rows[..|rows| - 1] + [rows[|rows| - 1]];
    }
  }

  lemma {:induction false} SelectInNone(rows: seq<ParsedSeries>, c: Column)
    ensures SelectIn(rows, c, {}) == []
  {
    if rows != [] {
      SelectInNone(rows[..|rows| - 1], c);
    }
  }

  lemma {:induction false} HandledIdsSnoc(rows: seq<ParsedSeries>, r: ParsedSeries)
    ensures HandledIds(rows + [r]) == HandledIds(rows) + HandledRow(r)
  {
    assert (rows + [r])[..|rows|] == rows;
  }

  lemma {:induction false} HandledIdsAppend(a: seq<ParsedSeries>, b: seq<ParsedSeries>)
    ensures HandledIds(a + b) == HandledIds(a) + HandledIds(b)
  {
    if b == [] {
      assert a + b == a;
    } else {
      var init, x := b[..|b| - 1], b[|b| - 1];
      assert b == init + [x];
      calc {
        HandledIds(a + b);
        { assert a + b == (a + init) + [x]; }
        HandledIds((a + init) + [x]);
        { HandledIdsSnoc(a + init, x); }
        HandledIds(a + init) + HandledRow(x);
        { HandledIdsAppend(a, init); }
        HandledIds(a) + HandledIds(init) + HandledRow(x);
        { HandledIdsSnoc(init, x); }
        HandledIds(a) + HandledIds(b);
      }
    }
  }

  lemma {:induction false} MultisetRemoveAt(ys: seq<ParsedSeries>, i: nat)
    requires i < |ys|
    ensures multiset(ys[..i] + ys[i + 1..]) == multiset(ys) - multiset{ys[i]}
  {
    assert ys == ys[..i] + [ys[i]] + ys[i + 1..];
  }

  lemma {:induction false} HandledIdsAround(ys: seq<ParsedSeries>, i: nat)
    requires i < |ys|
    ensures HandledIds(ys) == HandledIds(ys[..i]) + HandledRow(ys[i]) + HandledIds(ys[i + 1..])
  {
    assert ys == (ys[..i] + [ys[i]]) + ys[i + 1..];
    HandledIdsAppend(ys[..i] + [ys[i]], ys[i + 1..]);
    HandledIdsSnoc(ys[..i], ys[i]);
  }

  /** Reordering the rows (as sorting does) reorders their handled identifiers and nothing more. */
  lemma {:induction false} HandledIdsPermutation(xs: seq<ParsedSeries>, ys: seq<ParsedSeries>)
    requires multiset(xs) == multiset(ys)
    ensures multiset(HandledIds(xs)) == multiset(HandledIds(ys))
  {
    if xs == [] {
      assert |ys| == |multiset(ys)| == 0;
    } else {
      var x := xs[|xs| - 1];
      var init := xs[..|xs| - 1];
      assert xs == init + [x];
      assert x in multiset(ys);
      var i :| 0 <= i < |ys| && ys[i] == x;
      var rest := ys[..i] + ys[i + 1..];
      MultisetRemoveAt(ys, i);
      assert multiset(init) == multiset(xs) - multiset{x};
      HandledIdsPermutation(init, rest);
      HandledIdsAround(ys, i);
      HandledIdsAppend(ys[..i], ys[i + 1..]);
      HandledIdsSnoc(init, x);
    }
  }

  /** Splitting a key set in two splits the handled identifiers of the selected rows in two. */
  lemma {:induction false} SelectInSplit(rows: seq<ParsedSeries>, c: Column, vs: set<string>, v: string)
    requires v !in vs
    ensures multiset(HandledIds(SelectIn(rows, c, vs + {v})))
         == multiset(HandledIds(SelectIn(rows, c, vs))) + multiset(HandledIds(Select(rows, c, v)))
  {
    if rows != [] {
      var init, r := rows[..|rows| - 1], rows[|rows| - 1];
      var both, some, one := SelectIn(init, c, vs + {v}), SelectIn(init, c, vs), Select(init, c, v);
      SelectInSplit(init, c, vs, v);
      var both', some', one' := SelectIn(rows, c, vs + {v}), SelectIn(rows, c, vs), Select(rows, c, v);
      var h := HandledRow(r);
      if Key(r, c) in vs {
        assert both' == both + [r] && some' == some + [r] && one' == one;
        HandledIdsSnoc(both, r);
        HandledIdsSnoc(some, r);
        assert multiset(HandledIds(both')) == multiset(HandledIds(both)) + multiset(h);
        assert multiset(HandledIds(some')) == multiset(HandledIds(some)) + multiset(h);
      } else if Key(r, c) == v {
        assert both' == both + [r] && some' == some && one' == one + [r];
        HandledIdsSnoc(both, r);
        HandledIdsSnoc(one, r);
        assert multiset(HandledIds(both')) == multiset(HandledIds(both)) + multiset(h);
        assert multiset(HandledIds(one')) == multiset(HandledIds(one)) + multiset(h);
      } else {
        assert both' == both && some' == some && one' == one;
      }
    }
  }

  /** When every row has the same series type, its rows are all handled or all not. */
  lemma {:induction false} HandledIdsOneType(rows: seq<ParsedSeries>, series: string)
    requires forall i | 0 <= i < |rows| :: rows[i].series == series
    ensures KindOf(series).None? ==> HandledIds(rows) == []
    ensures KindOf(series).Some? ==> HandledIds(rows) == Ids(rows)
  {
    if rows != [] {
      HandledIdsOneType(rows[..|rows| - 1], series);
    }
  }

  function Ids(rows: seq<ParsedSeries>): seq<string>
  {
    if rows == [] then [] else Ids(rows[..|rows| - 1]) + [rows[|rows| - 1].ftqSeriesId]
  }

  /** The handled identifiers of the parsed input are the handled identifiers of the input. */
  lemma {:induction false} HandledIdsOfParsed(qc: seq<string>)
    ensures HandledIds(ParsedRows(qc)) == HandledOf(qc)
  {
    if qc != [] {
      var init, id := qc[..|qc| - 1], qc[|qc| - 1];
      HandledIdsOfParsed(init);
      if WellFormed(id) {
        HandledIdsSnoc(ParsedRows(init), Parse(id));
      } else {
        assert ParsedRows(qc) == ParsedRows(init);
        assert !Handled(id);
        assert HandledOf(qc) == HandledOf(init);
      }
    }
  }

  // ---------------------------------------------------------------------------
  // The state ftq_map builds

  /** The four lists of `fin[sub][ses]`. */
  datatype Buckets = Buckets(anat: seq<string>, dwi: seq<string>, fmap: seq<string>, func: seq<string>)

  const EMPTY_BUCKETS := Buckets([], [], [], [])

  /** `fin`: subject key, then session key, then the four buckets. */
  type Tree = map<string, map<string, Buckets>>

  /** Everything ftq_map returns except `errors`; `doneFtq` and `doneYesno` are the two columns of `have_df`. */
  datatype Layout = Layout(
    fin: Tree,
    mapping: map<string, seq<string>>,
    doneFtq: seq<string>,
    doneYesno: seq<int>,
    missing: seq<string>)

  const EMPTY_LAYOUT := Layout(map[], map[], [], [], [])

  /** `bs[b].extend(names)`. */
  function ExtendBucket(bs: Buckets, b: Bucket, names: seq<string>): Buckets
  {
    match b
    case Anat => bs.(anat := bs.anat + names)
    case Dwi => bs.(dwi := bs.dwi + names)
    case Fmap => bs.(fmap := bs.fmap + names)
    case Func => bs.(func := bs.func + names)
  }

  function SubTree(fin: Tree, sub: string): map<string, Buckets>
  {
    if sub in fin then fin[sub] else map[]
  }

  function BucketsAt(fin: Tree, sub: string, ses: string): Buckets
  {
    var t := SubTree(fin, sub);
    if ses in t then t[ses] else EMPTY_BUCKETS
  }

  /** `fin[sub][ses][b].extend(names)`. */
  function ExtendTree(fin: Tree, sub: string, ses: string, b: Bucket, names: seq<string>): Tree
  {
    fin[sub := SubTree(fin, sub)[ses := ExtendBucket(BucketsAt(fin, sub, ses), b, names)]]
  }

  /** The directory a series' files are looked for in: `{directory}/{sub}/{ses}/{bucket}`. */
  function SeriesDir(directory: string, s: string, ss: string, k: SeriesKind): string
  {
    directory + "/" + ("sub-" + s) + "/" + ("ses-" + ss) + "/" + BucketName(BucketOf(k))
  }

  function PathIn(dir: string, f: string): string
  {
    dir + "/" + f
  }

  /** Every name's path is a file. */
  predicate AllPresent(dir: string, names: seq<string>, files: set<string>)
  {
    names == [] || (AllPresent(dir, names[..|names| - 1], files) && PathIn(dir, names[|names| - 1]) in files)
  }

  /** The names whose path is not a file, in list order. */
  function Absent(dir: string, names: seq<string>, files: set<string>): seq<string>
  {
    if names == [] then []
    else
      var f := names[|names| - 1];
      Absent(dir, names[..|names| - 1], files) + (if PathIn(dir, f) in files then [] else [f])
  }

  /** The `have` value of one series: 1 when every file is there, 0 otherwise. */
  function Flag(dir: string, names: seq<string>, files: set<string>): int
  {
    if AllPresent(dir, names, files) then 1 else 0
  }

  /**
   A series' missing files are its names whose path is not a file, each as
   often as it is listed, in list order; there are none exactly when the series
   is complete.
   */
  lemma {:induction false} AbsentFacts(dir: string, names: seq<string>, files: set<string>)
    ensures forall f :: f in Absent(dir, names, files) <==> f in names && PathIn(dir, f) !in files
    ensures forall f :: multiset(Absent(dir, names, files))[f]
                        == if PathIn(dir, f) in files then 0 else multiset(names)[f]
    ensures AllPresent(dir, names, files) <==> forall f | f in names :: PathIn(dir, f) in files
  {
    AbsentIffComplete(dir, names, files);
    if names != [] {
      var init := names[..|names| - 1];
      AbsentFacts(dir, init, files);
      assert names == init + [names[|names| - 1]];
      if Absent(dir, names, files) == [] {
        assert Absent(dir, init, files) == [];
      }
    }
  }

  /** A series has no missing file exactly when it is complete. */
  lemma {:induction false} AbsentIffComplete(dir: string, names: seq<string>, files: set<string>)
    ensures Absent(dir, names, files) == [] <==> AllPresent(dir, names, files)
  {
    if names != [] {
      AbsentIffComplete(dir, names[..|names| - 1], files);
    }
  }

  /** The run label of the i-th of n sorted rows: none for a group of one. */
  function RunOf(i: nat, n: nat): Option<string>
  {
    if n == 1 then None else Some(RunLabel(i))
  }

  /** The root directory and the set of paths that are files. */
  datatype Disk = Disk(directory: string, files: set<string>)

  // ---------------------------------------------------------------------------
  // The run as a sequence of actions

  /**
   One thing the loops of ftq_map do to the layout: start a subject's entry of
   `fin` (ftq_map.py:54), start a session's entry (ftq_map.py:62), or record
   and check the expected files of one series.
   */
  datatype Action =
    | OpenSubject(sub: string)
    | OpenSession(sub: string, ses: string)
    | Check(sub: string, ses: string, bucket: Bucket, dir: string, ftq: string, names: seq<string>)

  /**
   Record one checked series: its names go to `mapping[ftq]` and to bucket b of
   `fin[sub][ses]`; its flag goes to `doneYesno` and its absent names to `missing`.
   */
  function Record(lay: Layout, files: set<string>, sub: string, ses: string, b: Bucket, dir: string, ftq: string, names: seq<string>): Layout
  {
    Layout(
      ExtendTree(lay.fin, sub, ses, b, names),
      lay.mapping[ftq := names],
      lay.doneFtq + [ftq],
      lay.doneYesno + [Flag(dir, names, files)],
      lay.missing + Absent(dir, names, files))
  }

  function Step(lay: Layout, files: set<string>, a: Action): Layout
  {
    match a
    case OpenSubject(sub) => lay.(fin := lay.fin[sub := map[]])
    case OpenSession(sub, ses) => lay.(fin := lay.fin[sub := SubTree(lay.fin, sub)[ses := EMPTY_BUCKETS]])
    case Check(sub, ses, b, dir, ftq, names) => Record(lay, files, sub, ses, b, dir, ftq, names)
  }

  /** The layout after the given actions, in order. */
  function Apply(lay: Layout, files: set<string>, plan: seq<Action>): Layout
  {
    if plan == [] then lay else Step(Apply(lay, files, plan[..|plan| - 1]), files, plan[|plan| - 1])
  }

  /** The check of one row of series type k, with run label run. */
  function CheckOf(directory: string, k: SeriesKind, s: string, ss: string, r: ParsedSeries, run: Option<string>): Action
  {
    Check("sub-" + s, "ses-" + ss, BucketOf(k), SeriesDir(directory, s, ss, k), r.ftqSeriesId, ExpectedFiles(k, s, ss, run))
  }

  /** The checks of the first n rows of one sorted group (the body of each branch, e.g. ftq_map.py:99-111). */
  function RunChecks(directory: string, k: SeriesKind, s: string, ss: string, group: seq<ParsedSeries>, n: nat): seq<Action>
    requires n <= |group|
  {
    if n == 0 then []
    else RunChecks(directory, k, s, ss, group, n - 1) + [CheckOf(directory, k, s, ss, group[n - 1], RunOf(n - 1, |group|))]
  }

  function TimeOf(r: ParsedSeries): string
  {
    r.time
  }

  /** The rows of one series type within a session, sorted by the timestamp string (`run_df`). */
  function Group(rows: seq<ParsedSeries>, series: string): seq<ParsedSeries>
  {
    SortBy(Select(rows, SeriesCol, series), TimeOf)
  }

  /** One series type of one session: its branch, or nothing when no branch matches. */
  function GroupPlan(directory: string, rows: seq<ParsedSeries>, s: string, ss: string, series: string): seq<Action>
  {
    var group := Group(rows, series);
    match KindOf(series)
    case None => []
    case Some(k) => RunChecks(directory, k, s, ss, group, |group|)
  }

  function GroupsPlan(directory: string, rows: seq<ParsedSeries>, s: string, ss: string, types: seq<string>, n: nat): seq<Action>
    requires n <= |types|
  {
    if n == 0 then [] else GroupsPlan(directory, rows, s, ss, types, n - 1) + GroupPlan(directory, rows, s, ss, types[n - 1])
  }

  /** One session of one subject (ftq_map.py:60-347): its entry, then its series types in first-seen order. */
  function SessionPlan(directory: string, rows: seq<ParsedSeries>, s: string, ss: string): seq<Action>
  {
    var sesRows := Select(rows, SesCol, ss);
    var types := Unique(ColumnOf(sesRows, SeriesCol));
    [OpenSession("sub-" + s, "ses-" + ss)] + GroupsPlan(directory, sesRows, s, ss, types, |types|)
  }

  function SessionsPlan(directory: string, rows: seq<ParsedSeries>, s: string, sessions: seq<string>, n: nat): seq<Action>
    requires n <= |sessions|
  {
    if n == 0 then [] else SessionsPlan(directory, rows, s, sessions, n - 1) + SessionPlan(directory, rows, s, sessions[n - 1])
  }

  /** One subject (ftq_map.py:51-347): its entry, then its sessions in first-seen order. */
  function SubjectPlan(directory: string, rows: seq<ParsedSeries>, s: string): seq<Action>
  {
    var subRows := Select(rows, SubCol, s);
    var sessions := Unique(ColumnOf(subRows, SesCol));
    [OpenSubject("sub-" + s)] + SessionsPlan(directory, subRows, s, sessions, |sessions|)
  }

  function SubjectsPlan(directory: string, rows: seq<ParsedSeries>, subjects: seq<string>, n: nat): seq<Action>
    requires n <= |subjects|
  {
    if n == 0 then [] else SubjectsPlan(directory, rows, subjects, n - 1) + SubjectPlan(directory, rows, subjects[n - 1])
  }

  /** Everything the loops do, subjects in first-seen order. */
  function Plan(rows: seq<ParsedSeries>, directory: string): seq<Action>
  {
    var subjects := Unique(ColumnOf(rows, SubCol));
    SubjectsPlan(directory, rows, subjects, |subjects|)
  }

  /** Everything ftq_map builds from the parsed rows. */
  function Resolve(rows: seq<ParsedSeries>, disk: Disk): Layout
  {
    Apply(EMPTY_LAYOUT, disk.files, Plan(rows, disk.directory))
  }

  /** The identifiers the actions check, in order. */
  function CheckedIds(plan: seq<Action>): seq<string>
  {
    if plan == [] then []
    else
      var a := plan[|plan| - 1];
      CheckedIds(plan[..|plan| - 1]) + (if a.Check? then [a.ftq] else [])
  }

  lemma {:induction false} CheckedIdsAppend(a: seq<Action>, b: seq<Action>)
    ensures CheckedIds(a + b) == CheckedIds(a) + CheckedIds(b)
  {
    if b != [] {
      var init := b[..|b| - 1];
      CheckedIdsAppend(a, init);
      assert (a + b)[..|a + b| - 1] == a + init;
    } else {
      assert a + b == a;
    }
  }

  /** Applying two runs of actions one after the other is applying them together. */
  lemma {:induction false} ApplyAppend(lay: Layout, files: set<string>, a: seq<Action>, b: seq<Action>)
    ensures Apply(lay, files, a + b) == Apply(Apply(lay, files, a), files, b)
  {
    if b != [] {
      var init := b[..|b| - 1];
      ApplyAppend(lay, files, a, init);
      assert (a + b)[..|a + b| - 1] == a + init;
    } else {
      assert a + b == a;
    }
  }

  lemma ApplySnoc(lay: Layout, files: set<string>, plan: seq<Action>, a: Action)
    ensures Apply(lay, files, plan + [a]) == Step(Apply(lay, files, plan), files, a)
  {
    assert (plan + [a])[..|plan + [a]| - 1] == plan;
  }

  lemma ApplyOne(lay: Layout, files: set<string>, a: Action)
    ensures Apply(lay, files, [a]) == Step(lay, files, a)
  {
    assert [a][..0] == [];
  }

  /** Applying a longer run after a common head is applying the extra actions to the shorter run's result. */
  lemma ApplyExtend(lay: Layout, files: set<string>, head: seq<Action>, plan: seq<Action>, more: seq<Action>)
    ensures Apply(lay, files, head + (plan + more)) == Apply(Apply(lay, files, head + plan), files, more)
  {
    assert head + (plan + more) == (head + plan) + more;
    ApplyAppend(lay, files, head + plan, more);
  }

  /** `doneFtq` grows by the checked identifiers, in order. */
  lemma {:induction false} ApplyIds(lay: Layout, files: set<string>, plan: seq<Action>)
    ensures Apply(lay, files, plan).doneFtq == lay.doneFtq + CheckedIds(plan)
  {
    if plan != [] {
      ApplyIds(lay, files, plan[..|plan| - 1]);
    }
  }

  // ---------------------------------------------------------------------------
  // What the layout guarantees

  /** `names` is the expected file list of the handled series `id`, with no run label or with some run label. */
  ghost predicate NamedAfter(id: string, names: seq<string>)
  {
    Handled(id) &&
    var t := Split(id, '_');
    var k := KindOf(t[2]).value;
    (names == ExpectedFiles(k, t[0], t[1], None)
     || exists i: nat :: names == ExpectedFiles(k, t[0], t[1], Some(RunLabel(i))))
  }

  /** The directory a handled identifier's files are looked for in. */
  function IdDir(directory: string, id: string): string
  {
    if Handled(id) then
      var t := Split(id, '_');
      SeriesDir(directory, t[0], t[1], KindOf(t[2]).value)
    else directory
  }

  /** Position i holds the last check of its identifier. */
  ghost predicate LastCheck(ids: seq<string>, i: nat)
    requires i < |ids|
  {
    forall j | i < j < |ids| :: ids[j] != ids[i]
  }

  /** The last flag of each checked identifier is 1 exactly when all its mapped files exist. */
  ghost predicate FlagsCurrent(lay: Layout, disk: Disk)
    requires |lay.doneFtq| == |lay.doneYesno|
  {
    forall i | 0 <= i < |lay.doneFtq| && LastCheck(lay.doneFtq, i) ::
      lay.doneFtq[i] in lay.mapping
      && lay.doneYesno[i] == Flag(IdDir(disk.directory, lay.doneFtq[i]), lay.mapping[lay.doneFtq[i]], disk.files)
  }

  /** No file is ever filed under `fmap`. */
  predicate NoFmap(fin: Tree)
  {
    forall sub, ses | sub in fin && ses in fin[sub] :: fin[sub][ses].fmap == []
  }

  /** `missing` is empty exactly when every flag is 1. */
  predicate MissingIffComplete(lay: Layout)
  {
    lay.missing == [] <==> forall i | 0 <= i < |lay.doneYesno| :: lay.doneYesno[i] == 1
  }

  /**
   The invariant of ftq_map's state: one flag per checked identifier, each 0
   or 1; `mapping` holds exactly the checked identifiers, each with the expected
   names of its own series; the last flag of an identifier is 1 exactly when
   all its mapped files exist; no file is ever filed under `fmap`; and
   `missing` is empty exactly when every flag is 1.
   */
  ghost predicate Coherent(lay: Layout, disk: Disk)
  {
    && |lay.doneFtq| == |lay.doneYesno|
    && (forall i | 0 <= i < |lay.doneYesno| :: lay.doneYesno[i] == 0 || lay.doneYesno[i] == 1)
    && (forall id :: id in lay.mapping <==> id in lay.doneFtq)
    && (forall id | id in lay.mapping :: NamedAfter(id, lay.mapping[id]))
    && FlagsCurrent(lay, disk)
    && NoFmap(lay.fin)
    && MissingIffComplete(lay)
  }

  lemma EmptyCoherent(disk: Disk)
    ensures Coherent(EMPTY_LAYOUT, disk)
  {
  }

  lemma LastCheckSnoc(ids: seq<string>, x: string, j: nat)
    requires j < |ids| && LastCheck(ids + [x], j)
    ensures LastCheck(ids, j) && ids[j] != x
  {
    var longer := ids + [x];
    assert longer[|ids|] == x;
    forall q | j < q < |ids|
      ensures ids[q] != ids[j]
    {
      assert longer[q] == ids[q];
    }
  }

  lemma RecordFlagsCurrent(lay: Layout, disk: Disk, sub: string, ses: string, b: Bucket, dir: string, ftq: string, names: seq<string>)
    requires |lay.doneFtq| == |lay.doneYesno| && FlagsCurrent(lay, disk)
    requires IdDir(disk.directory, ftq) == dir
    ensures FlagsCurrent(Record(lay, disk.files, sub, ses, b, dir, ftq, names), disk)
  {
    var next := Record(lay, disk.files, sub, ses, b, dir, ftq, names);
    forall j | 0 <= j < |next.doneFtq| && LastCheck(next.doneFtq, j)
      ensures next.doneFtq[j] in next.mapping
      ensures next.doneYesno[j] == Flag(IdDir(disk.directory, next.doneFtq[j]), next.mapping[next.doneFtq[j]], disk.files)
    {
      if j < |lay.doneFtq| {
        LastCheckSnoc(lay.doneFtq, ftq, j);
      }
    }
  }

  lemma RecordMissing(lay: Layout, disk: Disk, sub: string, ses: string, b: Bucket, dir: string, ftq: string, names: seq<string>)
    requires MissingIffComplete(lay)
    ensures MissingIffComplete(Record(lay, disk.files, sub, ses, b, dir, ftq, names))
  {
    var next := Record(lay, disk.files, sub, ses, b, dir, ftq, names);
    var m := |lay.doneYesno|;
    AbsentIffComplete(dir, names, disk.files);
    var f := Flag(dir, names, disk.files);
    assert next.doneYesno == lay.doneYesno + [f];
    assert next.missing == lay.missing + Absent(dir, names, disk.files);
    if forall i | 0 <= i < |next.doneYesno| :: next.doneYesno[i] == 1 {
      assert next.doneYesno[m] == f;
      forall i | 0 <= i < m
        ensures lay.doneYesno[i] == 1
      {
        assert next.doneYesno[i] == lay.doneYesno[i];
      }
    }
  }

  lemma ExtendTreeNoFmap(fin: Tree, sub: string, ses: string, b: Bucket, names: seq<string>)
    requires NoFmap(fin) && b != Fmap
    ensures NoFmap(ExtendTree(fin, sub, ses, b, names))
  {
    var next: Tree := ExtendTree(fin, sub, ses, b, names);
    forall sub', ses' | sub' in next && ses' in next[sub']
      ensures next[sub'][ses'].fmap == []
    {
      if sub' in fin && ses' in fin[sub'] {
        assert fin[sub'][ses'].fmap == [];
      }
    }
  }

  /** Recording a series named after its identifier, outside `fmap`, keeps the invariant. */
  lemma RecordCoherent(lay: Layout, disk: Disk, sub: string, ses: string, b: Bucket, dir: string, ftq: string, names: seq<string>)
    requires Coherent(lay, disk)
    requires NamedAfter(ftq, names) && IdDir(disk.directory, ftq) == dir && b != Fmap
    ensures Coherent(Record(lay, disk.files, sub, ses, b, dir, ftq, names), disk)
  {
    RecordFlagsCurrent(lay, disk, sub, ses, b, dir, ftq, names);
    RecordMissing(lay, disk, sub, ses, b, dir, ftq, names);
    ExtendTreeNoFmap(lay.fin, sub, ses, b, names);
  }

  /** A check is proper when its names and directory are those of its own identifier and it files nothing under `fmap`. */
  ghost predicate Proper(a: Action, directory: string)
  {
    a.Check? ==> NamedAfter(a.ftq, a.names) && IdDir(directory, a.ftq) == a.dir && a.bucket != Fmap
  }

  ghost predicate AllProper(plan: seq<Action>, directory: string)
  {
    plan == [] || (AllProper(plan[..|plan| - 1], directory) && Proper(plan[|plan| - 1], directory))
  }

  /** Every proper action keeps the invariant. */
  lemma StepCoherent(lay: Layout, disk: Disk, a: Action)
    requires Coherent(lay, disk) && Proper(a, disk.directory)
    ensures Coherent(Step(lay, disk.files, a), disk)
  {
    var next := Step(lay, disk.files, a);
    match a
    case OpenSubject(sub) =>
      assert NoFmap(next.fin) by {
        forall sub', ses' | sub' in next.fin && ses' in next.fin[sub']
          ensures next.fin[sub'][ses'].fmap == []
        {
          assert sub' in lay.fin && ses' in lay.fin[sub'];
        }
      }
    case OpenSession(sub, ses) =>
      assert NoFmap(next.fin) by {
        forall sub', ses' | sub' in next.fin && ses' in next.fin[sub']
          ensures next.fin[sub'][ses'].fmap == []
        {
          if sub' in lay.fin && ses' in lay.fin[sub'] {
            assert lay.fin[sub'][ses'].fmap == [];
          }
        }
      }
    case Check(sub, ses, b, dir, ftq, names) =>
      RecordCoherent(lay, disk, sub, ses, b, dir, ftq, names);
  }

  /** A run of proper actions keeps the invariant. */
  lemma {:induction false} ApplyCoherent(lay: Layout, disk: Disk, plan: seq<Action>)
    requires Coherent(lay, disk) && AllProper(plan, disk.directory)
    ensures Coherent(Apply(lay, disk.files, plan), disk)
  {
    if plan != [] {
      var init := plan[..|plan| - 1];
      ApplyCoherent(lay, disk, init);
      StepCoherent(Apply(lay, disk.files, init), disk, plan[|plan| - 1]);
    }
  }

  lemma {:induction false} AllProperAppend(a: seq<Action>, b: seq<Action>, directory: string)
    requires AllProper(a, directory) && AllProper(b, directory)
    ensures AllProper(a + b, directory)
  {
    if b == [] {
      assert a + b == a;
    } else {
      var init := b[..|b| - 1];
      AllProperAppend(a, init, directory);
      assert (a + b)[..|a + b| - 1] == a + init;
    }
  }

  // ---------------------------------------------------------------------------
  // What the plan of a set of rows holds

  /** Every row is the split of its own identifier, with subject s and session ss where those are given. */
  predicate RowsOf(rows: seq<ParsedSeries>, s: Option<string>, ss: Option<string>)
  {
    forall i | 0 <= i < |rows| ::
      Consistent(rows[i]) && (s.Some? ==> rows[i].sub == s.value) && (ss.Some? ==> rows[i].ses == ss.value)
  }

  lemma RowsOfSubset(a: seq<ParsedSeries>, b: seq<ParsedSeries>, s: Option<string>, ss: Option<string>)
    requires RowsOf(a, s, ss) && forall r | r in b :: r in a
    ensures RowsOf(b, s, ss)
  {
    forall i | 0 <= i < |b|
      ensures Consistent(b[i]) && (s.Some? ==> b[i].sub == s.value) && (ss.Some? ==> b[i].ses == ss.value)
    {
      assert b[i] in a;
    }
  }

  /** The selected rows keep the row facts and all have key v. */
  lemma SelectRows(rows: seq<ParsedSeries>, c: Column, v: string, s: Option<string>, ss: Option<string>)
    requires RowsOf(rows, s, ss)
    ensures RowsOf(Select(rows, c, v), s, ss)
    ensures forall i | 0 <= i < |Select(rows, c, v)| :: Key(Select(rows, c, v)[i], c) == v
  {
    var sel := Select(rows, c, v);
    SelectMembers(rows, c, v);
    RowsOfSubset(rows, sel, s, ss);
    forall i | 0 <= i < |sel|
      ensures Key(sel[i], c) == v
    {
      assert sel[i] in sel;
    }
  }

  /** A row of series type k in subject s and session ss. */
  predicate RunRow(r: ParsedSeries, s: string, ss: string, k: SeriesKind)
  {
    Consistent(r) && r.sub == s && r.ses == ss && KindOf(r.series) == Some(k)
  }

  /** The check of such a row is proper, whatever its position in its group. */
  lemma CheckOfProper(directory: string, k: SeriesKind, s: string, ss: string, r: ParsedSeries, i: nat, n: nat)
    requires RunRow(r, s, ss, k)
    ensures Proper(CheckOf(directory, k, s, ss, r, RunOf(i, n)), directory)
  {
    var names := ExpectedFiles(k, s, ss, RunOf(i, n));
    assert Handled(r.ftqSeriesId);
    assert NamedAfter(r.ftqSeriesId, names) by {
      if n != 1 {
        assert names == ExpectedFiles(k, s, ss, Some(RunLabel(i)));
      }
    }
    BucketRouting(k);
  }

  /** A group's checks are all proper. */
  lemma RunChecksProper(directory: string, k: SeriesKind, s: string, ss: string, group: seq<ParsedSeries>, n: nat)
    requires n <= |group|
    requires forall i | 0 <= i < |group| :: RunRow(group[i], s, ss, k)
    ensures AllProper(RunChecks(directory, k, s, ss, group, n), directory)
  {
    var plan := RunChecks(directory, k, s, ss, group, n);
    RunChecksAt(directory, k, s, ss, group, n);
    forall r | 0 <= r < |plan|
      ensures Proper(plan[r], directory)
    {
      CheckOfProper(directory, k, s, ss, group[r], r, |group|);
    }
    AllProperOfEach(plan, directory);
  }

  lemma {:induction false} AllProperOfEach(plan: seq<Action>, directory: string)
    requires forall i | 0 <= i < |plan| :: Proper(plan[i], directory)
    ensures AllProper(plan, directory)
  {
    if plan != [] {
      AllProperOfEach(plan[..|plan| - 1], directory);
    }
  }

  /** A group's checks check its first n rows once each, in order. */
  lemma {:induction false} RunChecksIds(directory: string, k: SeriesKind, s: string, ss: string, group: seq<ParsedSeries>, n: nat)
    requires n <= |group|
    ensures CheckedIds(RunChecks(directory, k, s, ss, group, n)) == Ids(group[..n])
  {
    if n > 0 {
      RunChecksIds(directory, k, s, ss, group, n - 1);
      var init := RunChecks(directory, k, s, ss, group, n - 1);
      var c := CheckOf(directory, k, s, ss, group[n - 1], RunOf(n - 1, |group|));
      assert (init + [c])[..|init + [c]| - 1] == init;
      assert group[..n][..n - 1] == group[..n - 1];
    }
  }

  /** The sorted group of a series type holds the selected rows, reordered. */
  lemma GroupRows(rows: seq<ParsedSeries>, s: string, ss: string, series: string)
    requires RowsOf(rows, Some(s), Some(ss))
    ensures RowsOf(Group(rows, series), Some(s), Some(ss))
    ensures forall i | 0 <= i < |Group(rows, series)| :: Group(rows, series)[i].series == series
    ensures multiset(Group(rows, series)) == multiset(Select(rows, SeriesCol, series))
  {
    var sel := Select(rows, SeriesCol, series);
    var group := Group(rows, series);
    SelectRows(rows, SeriesCol, series, Some(s), Some(ss));
    assert multiset(group) == multiset(sel);
    forall r | r in group
      ensures r in sel
    {
      assert r in multiset(group);
    }
    RowsOfSubset(sel, group, Some(s), Some(ss));
    forall i | 0 <= i < |group|
      ensures group[i].series == series
    {
      assert group[i] in sel;
      var j :| 0 <= j < |sel| && sel[j] == group[i];
      assert Key(sel[j], SeriesCol) == series;
    }
  }

  /** Two rows agreeing on subject, session, series type and time have the same identifier, so are the same row. */
  lemma TiedRowsEqual(a: ParsedSeries, b: ParsedSeries)
    requires Consistent(a) && Consistent(b)
    requires a.sub == b.sub && a.ses == b.ses && a.series == b.series && a.time == b.time
    ensures a == b
  {
    JoinSplit(a.ftqSeriesId, '_');
    JoinSplit(b.ftqSeriesId, '_');
  }

  /**
   The time-sorted order of a series-type group (ftq_map.py:70-72) is the only
   one: any ordering of the selected rows that is sorted by time is the group.
   Ties in time occur only between identical rows, so the sort's tie order
   cannot be observed.
   */
  lemma GroupOrderDetermined(rows: seq<ParsedSeries>, s: string, ss: string, series: string, other: seq<ParsedSeries>)
    requires RowsOf(rows, Some(s), Some(ss))
    requires SortedBy(other, TimeOf) && multiset(other) == multiset(Select(rows, SeriesCol, series))
    ensures other == Group(rows, series)
  {
    var group := Group(rows, series);
    GroupRows(rows, s, ss, series);
    forall x, y | x in group && y in group && TimeOf(x) == TimeOf(y)
      ensures x == y
    {
      var i :| 0 <= i < |group| && group[i] == x;
      var j :| 0 <= j < |group| && group[j] == y;
      TiedRowsEqual(x, y);
    }
    SortedTiesDetermined(group, other, TimeOf);
  }

  lemma IdsAll(rows: seq<ParsedSeries>)
    ensures Ids(rows[..|rows|]) == Ids(rows)
  {
    assert rows[..|rows|] == rows;
  }

  /** One series type of a session: proper checks of exactly its handled rows. */
  lemma GroupPlanFacts(directory: string, rows: seq<ParsedSeries>, s: string, ss: string, series: string)
    requires RowsOf(rows, Some(s), Some(ss))
    ensures AllProper(GroupPlan(directory, rows, s, ss, series), directory)
    ensures multiset(CheckedIds(GroupPlan(directory, rows, s, ss, series)))
         == multiset(HandledIds(Select(rows, SeriesCol, series)))
  {
    var sel := Select(rows, SeriesCol, series);
    var group := Group(rows, series);
    GroupRows(rows, s, ss, series);
    SelectRows(rows, SeriesCol, series, Some(s), Some(ss));
    HandledIdsOneType(sel, series);
    match KindOf(series)
    case None =>
    case Some(k) =>
      assert forall i | 0 <= i < |group| :: RunRow(group[i], s, ss, k);
      RunChecksProper(directory, k, s, ss, group, |group|);
      RunChecksIds(directory, k, s, ss, group, |group|);
      IdsAll(group);
      HandledIdsOneType(group, series);
      HandledIdsPermutation(group, sel);
  }

  lemma {:induction false} GroupsPlanProper(directory: string, rows: seq<ParsedSeries>, s: string, ss: string, types: seq<string>, n: nat)
    requires n <= |types|
    requires RowsOf(rows, Some(s), Some(ss))
    ensures AllProper(GroupsPlan(directory, rows, s, ss, types, n), directory)
  {
    if n > 0 {
      GroupsPlanProper(directory, rows, s, ss, types, n - 1);
      GroupPlanFacts(directory, rows, s, ss, types[n - 1]);
      AllProperAppend(GroupsPlan(directory, rows, s, ss, types, n - 1), GroupPlan(directory, rows, s, ss, types[n - 1]), directory);
    }
  }

  /** Appending two plans that check x and y checks their union z. */
  lemma ChecksStep(a: seq<Action>, b: seq<Action>, x: seq<string>, y: seq<string>, z: seq<string>)
    requires multiset(CheckedIds(a)) == multiset(x) && multiset(CheckedIds(b)) == multiset(y)
    requires multiset(z) == multiset(x) + multiset(y)
    ensures multiset(CheckedIds(a + b)) == multiset(z)
  {
    CheckedIdsAppend(a, b);
  }

  /** In a list without duplicates, the n-th element is not among the earlier ones. */
  lemma LastFresh(xs: seq<string>, n: nat)
    requires 0 < n <= |xs| && NoDup(xs)
    ensures xs[n - 1] !in Elems(xs[..n - 1])
  {
  }

  lemma {:induction false} GroupsPlanIds(directory: string, rows: seq<ParsedSeries>, s: string, ss: string, types: seq<string>, n: nat)
    requires n <= |types| && NoDup(types)
    requires RowsOf(rows, Some(s), Some(ss))
    ensures multiset(CheckedIds(GroupsPlan(directory, rows, s, ss, types, n)))
         == multiset(HandledIds(SelectIn(rows, SeriesCol, Elems(types[..n]))))
  {
    if n == 0 {
      assert Elems(types[..0]) == {};
      SelectInNone(rows, SeriesCol);
    } else {
      var v, vs := types[n - 1], Elems(types[..n - 1]);
      ElemsSnoc(types, n);
      LastFresh(types, n);
      GroupsPlanIds(directory, rows, s, ss, types, n - 1);
      GroupPlanFacts(directory, rows, s, ss, v);
      SelectInSplit(rows, SeriesCol, vs, v);
      ChecksStep(GroupsPlan(directory, rows, s, ss, types, n - 1), GroupPlan(directory, rows, s, ss, v),
                 HandledIds(SelectIn(rows, SeriesCol, vs)), HandledIds(Select(rows, SeriesCol, v)),
                 HandledIds(SelectIn(rows, SeriesCol, vs + {v})));
    }
  }

  /** Every row's key in column c is one of the distinct values of that column. */
  lemma KeysListed(rows: seq<ParsedSeries>, c: Column)
    ensures forall i | 0 <= i < |rows| :: Key(rows[i], c) in Elems(Unique(ColumnOf(rows, c)))
  {
    forall i | 0 <= i < |rows|
      ensures Key(rows[i], c) in Elems(Unique(ColumnOf(rows, c)))
    {
      assert ColumnOf(rows, c)[i] == Key(rows[i], c);
    }
  }

  /** An action list headed by the opening of an entry checks what its tail checks. */
  lemma OpenedFacts(a: Action, rest: seq<Action>, directory: string)
    requires !a.Check? && AllProper(rest, directory)
    ensures AllProper([a] + rest, directory)
    ensures CheckedIds([a] + rest) == CheckedIds(rest)
  {
    assert [a][..0] == [];
    AllProperAppend([a], rest, directory);
    CheckedIdsAppend([a], rest);
    assert CheckedIds([a]) == CheckedIds([]);
  }

  /** One session: proper checks of exactly its handled rows. */
  lemma SessionPlanFacts(directory: string, rows: seq<ParsedSeries>, s: string, ss: string)
    requires RowsOf(rows, Some(s), None)
    ensures AllProper(SessionPlan(directory, rows, s, ss), directory)
    ensures multiset(CheckedIds(SessionPlan(directory, rows, s, ss)))
         == multiset(HandledIds(Select(rows, SesCol, ss)))
  {
    var sesRows := Select(rows, SesCol, ss);
    var types := Unique(ColumnOf(sesRows, SeriesCol));
    SelectRows(rows, SesCol, ss, Some(s), None);
    assert RowsOf(sesRows, Some(s), Some(ss)) by {
      forall i | 0 <= i < |sesRows|
        ensures sesRows[i].ses == ss
      {
        assert Key(sesRows[i], SesCol) == ss;
      }
    }
    GroupsPlanProper(directory, sesRows, s, ss, types, |types|);
    GroupsPlanIds(directory, sesRows, s, ss, types, |types|);
    OpenedFacts(OpenSession("sub-" + s, "ses-" + ss), GroupsPlan(directory, sesRows, s, ss, types, |types|), directory);
    assert types[..|types|] == types;
    KeysListed(sesRows, SeriesCol);
    SelectInAll(sesRows, SeriesCol, Elems(types));
  }

  lemma {:induction false} SessionsPlanFacts(directory: string, rows: seq<ParsedSeries>, s: string, sessions: seq<string>, n: nat)
    requires n <= |sessions| && NoDup(sessions)
    requires RowsOf(rows, Some(s), None)
    ensures AllProper(SessionsPlan(directory, rows, s, sessions, n), directory)
    ensures multiset(CheckedIds(SessionsPlan(directory, rows, s, sessions, n)))
         == multiset(HandledIds(SelectIn(rows, SesCol, Elems(sessions[..n]))))
  {
    if n == 0 {
      assert Elems(sessions[..0]) == {};
      SelectInNone(rows, SesCol);
    } else {
      var init := SessionsPlan(directory, rows, s, sessions, n - 1);
      var last := SessionPlan(directory, rows, s, sessions[n - 1]);
      ElemsSnoc(sessions, n);
      SessionsPlanFacts(directory, rows, s, sessions, n - 1);
      SessionPlanFacts(directory, rows, s, sessions[n - 1]);
      AllProperAppend(init, last, directory);
      CheckedIdsAppend(init, last);
      SelectInSplit(rows, SesCol, Elems(sessions[..n - 1]), sessions[n - 1]);
    }
  }

  /** One subject: proper checks of exactly its handled rows. */
  lemma SubjectPlanFacts(directory: string, rows: seq<ParsedSeries>, s: string)
    requires RowsOf(rows, None, None)
    ensures AllProper(SubjectPlan(directory, rows, s), directory)
    ensures multiset(CheckedIds(SubjectPlan(directory, rows, s)))
         == multiset(HandledIds(Select(rows, SubCol, s)))
  {
    var subRows := Select(rows, SubCol, s);
    var sessions := Unique(ColumnOf(subRows, SesCol));
    SelectRows(rows, SubCol, s, None, None);
    assert RowsOf(subRows, Some(s), None) by {
      forall i | 0 <= i < |subRows|
        ensures subRows[i].sub == s
      {
        assert Key(subRows[i], SubCol) == s;
      }
    }
    SessionsPlanFacts(directory, subRows, s, sessions, |sessions|);
    OpenedFacts(OpenSubject("sub-" + s), SessionsPlan(directory, subRows, s, sessions, |sessions|), directory);
    assert sessions[..|sessions|] == sessions;
    KeysListed(subRows, SesCol);
    SelectInAll(subRows, SesCol, Elems(sessions));
  }

  lemma {:induction false} SubjectsPlanFacts(directory: string, rows: seq<ParsedSeries>, subjects: seq<string>, n: nat)
    requires n <= |subjects| && NoDup(subjects)
    requires RowsOf(rows, None, None)
    ensures AllProper(SubjectsPlan(directory, rows, subjects, n), directory)
    ensures multiset(CheckedIds(SubjectsPlan(directory, rows, subjects, n)))
         == multiset(HandledIds(SelectIn(rows, SubCol, Elems(subjects[..n]))))
  {
    if n == 0 {
      assert Elems(subjects[..0]) == {};
      SelectInNone(rows, SubCol);
    } else {
      var init := SubjectsPlan(directory, rows, subjects, n - 1);
      var last := SubjectPlan(directory, rows, subjects[n - 1]);
      ElemsSnoc(subjects, n);
      SubjectsPlanFacts(directory, rows, subjects, n - 1);
      SubjectPlanFacts(directory, rows, subjects[n - 1]);
      AllProperAppend(init, last, directory);
      CheckedIdsAppend(init, last);
      SelectInSplit(rows, SubCol, Elems(subjects[..n - 1]), subjects[n - 1]);
    }
  }

  /** The whole run keeps the invariant and checks every handled row exactly once. */
  lemma ResolveCoherent(rows: seq<ParsedSeries>, disk: Disk)
    requires RowsOf(rows, None, None)
    ensures Coherent(Resolve(rows, disk), disk)
    ensures multiset(Resolve(rows, disk).doneFtq) == multiset(HandledIds(rows))
  {
    var subjects := Unique(ColumnOf(rows, SubCol));
    var plan := Plan(rows, disk.directory);
    SubjectsPlanFacts(disk.directory, rows, subjects, |subjects|);
    assert subjects[..|subjects|] == subjects;
    KeysListed(rows, SubCol);
    SelectInAll(rows, SubCol, Elems(subjects));
    EmptyCoherent(disk);
    ApplyCoherent(EMPTY_LAYOUT, disk, plan);
    ApplyIds(EMPTY_LAYOUT, disk.files, plan);
  }

  /**
   In terms of the input identifiers: every handled identifier is checked
   exactly as many times as it occurs and nothing else is checked, and
   `mapping` holds exactly the handled identifiers.
   */
  lemma ResolveFromIds(qc: seq<string>, disk: Disk)
    ensures Coherent(Resolve(ParsedRows(qc), disk), disk)
    ensures forall id :: multiset(Resolve(ParsedRows(qc), disk).doneFtq)[id]
                         == if Handled(id) then multiset(qc)[id] else 0
    ensures forall id :: id in Resolve(ParsedRows(qc), disk).mapping <==> id in qc && Handled(id)
  {
    var lay := Resolve(ParsedRows(qc), disk);
    ParseFacts(qc);
    assert RowsOf(ParsedRows(qc), None, None) by {
      forall i | 0 <= i < |ParsedRows(qc)|
        ensures Consistent(ParsedRows(qc)[i])
      {
        assert ParsedRows(qc)[i] in ParsedRows(qc);
      }
    }
    ResolveCoherent(ParsedRows(qc), disk);
    HandledIdsOfParsed(qc);
    HandledOfCount(qc);
    forall id
      ensures id in lay.mapping <==> id in qc && Handled(id)
    {
      assert id in lay.doneFtq <==> id in multiset(lay.doneFtq);
      assert id in qc <==> id in multiset(qc);
    }
  }

  // ---------------------------------------------------------------------------
  // Runs within a group

  /** The r-th action of a group's checks is the check of the r-th sorted row under its run label. */
  lemma {:induction false} RunChecksAt(directory: string, k: SeriesKind, s: string, ss: string, group: seq<ParsedSeries>, n: nat)
    requires n <= |group|
    ensures |RunChecks(directory, k, s, ss, group, n)| == n
    ensures forall r | 0 <= r < n ::
      RunChecks(directory, k, s, ss, group, n)[r] == CheckOf(directory, k, s, ss, group[r], RunOf(r, |group|))
  {
    if n > 0 {
      RunChecksAt(directory, k, s, ss, group, n - 1);
      var init := RunChecks(directory, k, s, ss, group, n - 1);
      var c := CheckOf(directory, k, s, ss, group[n - 1], RunOf(n - 1, |group|));
      assert RunChecks(directory, k, s, ss, group, n) == init + [c];
      forall r | 0 <= r < n
        ensures (init + [c])[r] == CheckOf(directory, k, s, ss, group[r], RunOf(r, |group|))
      {
        if r < n - 1 {
          assert (init + [c])[r] == init[r];
        }
      }
    }
  }

  /**
   A handled series type of a session (ftq_map.py:71-79): its rows are taken
   in ascending order of the timestamp string, they are exactly the session's
   rows of that type, and the r-th of them is checked under run label
   RunOf(r, n) for a group of n.
   */
  lemma GroupRuns(directory: string, rows: seq<ParsedSeries>, s: string, ss: string, series: string, k: SeriesKind)
    requires KindOf(series) == Some(k)
    ensures var group, plan := Group(rows, series), GroupPlan(directory, rows, s, ss, series);
      && SortedBy(group, TimeOf)
      && multiset(group) == multiset(Select(rows, SeriesCol, series))
      && |plan| == |group|
      && forall r | 0 <= r < |group| :: plan[r] == CheckOf(directory, k, s, ss, group[r], RunOf(r, |group|))
  {
    var group := Group(rows, series);
    RunChecksAt(directory, k, s, ss, group, |group|);
  }

  /**
   Run labels: a group of one has none; otherwise the r-th row's label is the
   decimal digits of r + 1, zero-padded to two characters (`str(r+1).zfill(2)`).
   */
  lemma RunOfLabel(r: nat, n: nat)
    requires r < n
    ensures RunOf(r, n).None? <==> n == 1
    ensures RunOf(r, n).Some? ==>
      var tag := RunOf(r, n).value;
      && (forall c | c in tag :: IsDigit(c))
      && DigitsValue(tag) == r + 1
      && |tag| >= 2 && (r < 99 ==> |tag| == 2)
  {
    RunLabelValue(r);
  }

  /**
   Single-run versus multi-run naming: splitting any expected file name of
   the r-th row of a group of n on `_` yields a `run-` piece exactly when
   n > 1, and that piece is `run-` followed by the row's label.
   */
  lemma GroupNaming(k: SeriesKind, s: string, ss: string, r: nat, n: nat, i: nat)
    requires r < n && i < |Extensions(k)|
    requires '_' !in s && '_' !in ss
    ensures var parts := Split(ExpectedFiles(k, s, ss, RunOf(r, n))[i], '_');
      && ((exists t | t in parts :: "run-" <= t) <==> n > 1)
      && (n > 1 ==> "run-" + RunLabel(r) in parts)
  {
    RunLabelValue(r);
    assert Underscoreless(s, ss, RunOf(r, n));
    RunPieceIffLabelled(k, s, ss, RunOf(r, n), i);
  }

}
