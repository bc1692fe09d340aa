/**
 The function `ftq_map` of ftq_map.py, step by step: parse the identifiers,
 then walk subjects, sessions and series types in first-seen order, name the
 expected files of each series and check them against the directory tree.
 Each loop is proved to follow the actions of `FtqMapSpec.Plan`, so the
 result is `FtqMapSpec.Resolve` and carries everything proved about it.
 */
module FtqMap {
  import opened Wrappers
  import opened Text
  import opened Ordering
  import opened Naming
  import opened FtqMapSpec

  /** The parsing loop (ftq_map.py:40-48): four-part identifiers become rows, the others errors. */
  method ParseIds(qc: seq<string>) returns (rows: seq<ParsedSeries>, errors: seq<string>)
    ensures rows == ParsedRows(qc) && errors == Malformed(qc)
    ensures forall x :: x in errors <==> x in qc && !WellFormed(x)
    ensures |rows| + |errors| == |qc|
    ensures forall r | r in rows :: Consistent(r) && r.ftqSeriesId in qc
  {
    rows, errors := [], [];
    for j := 0 to |qc|
      invariant rows == ParsedRows(qc[..j]) && errors == Malformed(qc[..j])
    {
      var temp := Split(qc[j], '_');
      if |temp| == 4 {
        rows := rows + [ParsedSeries(temp[0], temp[1], temp[2], temp[3], qc[j])];
      } else {
        errors := errors + [qc[j]];
      }
      assert qc[..j + 1][..j] == qc[..j];
    }
    assert qc[..|qc|] == qc;
    ParseFacts(qc);
  }

  /**
   The check of one series (e.g. ftq_map.py:92-97): `have` starts at 1 and drops
   to 0 at the first name whose path is not a file; every such name is collected.
   */
  method CheckPresence(dir: string, names: seq<string>, files: set<string>) returns (have: int, absent: seq<string>)
    ensures have == Flag(dir, names, files) && absent == Absent(dir, names, files)
    ensures have == 0 || have == 1
    ensures have == 1 <==> forall f | f in names :: PathIn(dir, f) in files
    ensures forall f :: f in absent <==> f in names && PathIn(dir, f) !in files
  {
    have, absent := 1, [];
    for j := 0 to |names|
      invariant have == Flag(dir, names[..j], files) && absent == Absent(dir, names[..j], files)
    {
      if PathIn(dir, names[j]) !in files {
        have := 0;
        absent := absent + [names[j]];
      }
      assert names[..j + 1][..j] == names[..j];
    }
    assert names[..|names|] == names;
    AbsentFacts(dir, names, files);
  }

  /**
   The branch of one series type in one session (an iteration of the loop at
   ftq_map.py:71): its rows sorted by time and, when a branch matches, one check
   per row with run labels counted from 01.
   */
  method CheckGroup(state: Layout, directory: string, files: set<string>, sesRows: seq<ParsedSeries>,
                    s: string, ss: string, series: string) returns (next: Layout)
    ensures next == Apply(state, files, GroupPlan(directory, sesRows, s, ss, series))
  {
    var runDf := Group(sesRows, series);
    next := state;
    var kind := KindOf(series);
    if kind.Some? {
      var k := kind.value;
      var sub, ses := "sub-" + s, "ses-" + ss;
      var dir := SeriesDir(directory, s, ss, k);
      for r := 0 to |runDf|
        invariant next == Apply(state, files, RunChecks(directory, k, s, ss, runDf, r))
      {
        var ftq := runDf[r].ftqSeriesId;
        var names := ExpectedFiles(k, s, ss, RunOf(r, |runDf|));
        var have, absent := CheckPresence(dir, names, files);
        ApplySnoc(state, files, RunChecks(directory, k, s, ss, runDf, r), CheckOf(directory, k, s, ss, runDf[r], RunOf(r, |runDf|)));
        next := Layout(
          ExtendTree(next.fin, sub, ses, BucketOf(k), names),
          next.mapping[ftq := names],
          next.doneFtq + [ftq],
          next.doneYesno + [have],
          next.missing + absent);
      }
    }
  }

  /** One session of one subject (an iteration of the loop at ftq_map.py:60): its entry, then its series types. */
  method CheckSession(state: Layout, directory: string, files: set<string>, subRows: seq<ParsedSeries>,
                      s: string, ss: string) returns (next: Layout)
    ensures next == Apply(state, files, SessionPlan(directory, subRows, s, ss))
  {
    var sub, ses := "sub-" + s, "ses-" + ss;
    next := state.(fin := state.fin[sub := SubTree(state.fin, sub)[ses := EMPTY_BUCKETS]]);
    ApplyOne(state, files, OpenSession(sub, ses));
    var sesRows := Select(subRows, SesCol, ss);
    var types := Unique(ColumnOf(sesRows, SeriesCol));
    for g := 0 to |types|
      invariant next == Apply(state, files, [OpenSession(sub, ses)] + GroupsPlan(directory, sesRows, s, ss, types, g))
    {
      ApplyExtend(state, files, [OpenSession(sub, ses)], GroupsPlan(directory, sesRows, s, ss, types, g),
                  GroupPlan(directory, sesRows, s, ss, types[g]));
      next := CheckGroup(next, directory, files, sesRows, s, ss, types[g]);
    }
  }

  /** One subject (an iteration of the loop at ftq_map.py:51): its entry, then its sessions. */
  method CheckSubject(state: Layout, directory: string, files: set<string>, rows: seq<ParsedSeries>, s: string)
    returns (next: Layout)
    ensures next == Apply(state, files, SubjectPlan(directory, rows, s))
  {
    var sub := "sub-" + s;
    next := state.(fin := state.fin[sub := map[]]);
    ApplyOne(state, files, OpenSubject(sub));
    var subRows := Select(rows, SubCol, s);
    var sessions := Unique(ColumnOf(subRows, SesCol));
    for j := 0 to |sessions|
      invariant next == Apply(state, files, [OpenSubject(sub)] + SessionsPlan(directory, subRows, s, sessions, j))
    {
      ApplyExtend(state, files, [OpenSubject(sub)], SessionsPlan(directory, subRows, s, sessions, j),
                  SessionPlan(directory, subRows, s, sessions[j]));
      next := CheckSession(next, directory, files, subRows, s, sessions[j]);
    }
  }

  /**
   ftq_map(qc, directory), with the filesystem given as the set of paths that
   are files. `doneFtq` and `doneYesno` are the two columns of `have_df`.
   */
  method FtqMap(qc: seq<string>, directory: string, files: set<string>)
    returns (fin: Tree, mapping: map<string, seq<string>>, errors: seq<string>,
             doneFtq: seq<string>, doneYesno: seq<int>, missing: seq<string>)
    ensures errors == Malformed(qc)
    ensures Layout(fin, mapping, doneFtq, doneYesno, missing) == Resolve(ParsedRows(qc), Disk(directory, files))
    ensures Coherent(Layout(fin, mapping, doneFtq, doneYesno, missing), Disk(directory, files))
    ensures forall id :: multiset(doneFtq)[id] == if Handled(id) then multiset(qc)[id] else 0
    ensures forall id :: id in mapping <==> id in qc && Handled(id)
  {
    var rows;
    rows, errors := ParseIds(qc);
    var state := EMPTY_LAYOUT;
    var subjects := Unique(ColumnOf(rows, SubCol));
    for i := 0 to |subjects|
      invariant state == Apply(EMPTY_LAYOUT, files, SubjectsPlan(directory, rows, subjects, i))
    {
      ApplyAppend(EMPTY_LAYOUT, files, SubjectsPlan(directory, rows, subjects, i), SubjectPlan(directory, rows, subjects[i]));
      state := CheckSubject(state, directory, files, rows, subjects[i]);
    }
    fin, mapping, doneFtq, doneYesno, missing := state.fin, state.mapping, state.doneFtq, state.doneYesno, state.missing;
    ResolveFromIds(qc, Disk(directory, files));
  }

}
