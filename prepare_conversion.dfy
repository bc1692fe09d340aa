/**
 The preparation script (utilities/prepare_conversion.py): it drops recalled
 rows from the QC table, runs ftq_map over the remaining identifiers, lists
 the session directories to delete before a fresh conversion (sessions with a
 series whose files are not all present), and splits the QC rows into
 malformed identifiers, sessions already converted and sessions still to
 convert, keeping only the latter for the conversion's QC file.
 */
module PrepareConversion {
  import opened Wrappers
  import opened Text
  import opened Ordering
  import opened FtqMapSpec
  import opened FtqMap

  /** The columns of a QC table row the script reads. */
  datatype QcRow = QcRow(ftqSeriesId: string, recalled: string, subjectkey: string)

  /** `qc.loc[qc['ftq_recalled'] != '1']`: the rows not recalled, in table order. */
  function NotRecalled(rows: seq<QcRow>): (r: seq<QcRow>)
    ensures forall x :: x in r <==> x in rows && x.recalled != "1"
    ensures |r| <= |rows|
  {
    if rows == [] then []
    else
      var last := rows[|rows| - 1];
      assert rows == rows[..|rows| - 1] + [last];
      NotRecalled(rows[..|rows| - 1]) + (if last.recalled != "1" then [last] else [])
  }

  /** The identifier column of a table. */
  function SeriesIds(rows: seq<QcRow>): (ids: seq<string>)
    ensures |ids| == |rows| && forall i | 0 <= i < |rows| :: ids[i] == rows[i].ftqSeriesId
  {
    seq(|rows|, i requires 0 <= i < |rows| => rows[i].ftqSeriesId)
  }

  /** `have_df[have_df['done'] == 0]['ftq']`: the series whose flag is 0, in `have_df` order. */
  function NotDone(ftq: seq<string>, done: seq<int>): (r: seq<string>)
    requires |ftq| == |done|
    ensures forall x :: x in r <==> exists i | 0 <= i < |ftq| :: ftq[i] == x && done[i] == 0
  {
    if ftq == [] then []
    else
      var n := |ftq| - 1;
      var init := NotDone(ftq[..n], done[..n]);
      assert forall i | 0 <= i < n :: ftq[..n][i] == ftq[i] && done[..n][i] == done[i];
      init + (if done[n] == 0 then [ftq[n]] else [])
  }

  /** The directory of one session under the BIDS tree `top`. */
  function SessionDir(top: string, sub: string, ses: string): string
  {
    top + "/sub-" + sub + "/ses-" + ses
  }

  /**
   Session `ses` of subject `sub` is to be removed: some not-done identifier
   splits into four parts naming that subject and session, and the session's
   directory exists.
   */
  predicate ToRemove(notDone: seq<string>, top: string, dirs: set<string>, sub: string, ses: string)
  {
    && (exists i | 0 <= i < |notDone| :: WellFormed(notDone[i]) && Split(notDone[i], '_')[0] == sub && Split(notDone[i], '_')[1] == ses)
    && SessionDir(top, sub, ses) in dirs
  }

  /** The rows of `ftq_df` carry exactly the (subject, session) pairs of the four-part not-done identifiers. */
  lemma {:induction false} PairsOfParsed(ids: seq<string>, sub: string, ses: string)
    ensures (exists r | r in ParsedRows(ids) :: r.sub == sub && r.ses == ses) <==>
      exists i | 0 <= i < |ids| :: WellFormed(ids[i]) && Split(ids[i], '_')[0] == sub && Split(ids[i], '_')[1] == ses
  {
    if ids != [] {
      var n := |ids| - 1;
      var init, last := ids[..n], ids[n];
      PairsOfParsed(init, sub, ses);
      assert ParsedRows(ids) == ParsedRows(init) + (if WellFormed(last) then [Parse(last)] else []);
      assert forall i | 0 <= i < n :: init[i] == ids[i];
      if exists i | 0 <= i < |ids| :: WellFormed(ids[i]) && Split(ids[i], '_')[0] == sub && Split(ids[i], '_')[1] == ses {
        var i :| 0 <= i < |ids| && WellFormed(ids[i]) && Split(ids[i], '_')[0] == sub && Split(ids[i], '_')[1] == ses;
        if i == n {
          assert Parse(last) in ParsedRows(ids);
        }
      }
    }
  }

  /** A value is in a column exactly when some row carries it there. */
  lemma ColumnMembers(rows: seq<ParsedSeries>, c: Column, v: string)
    ensures v in ColumnOf(rows, c) <==> exists r | r in rows :: Key(r, c) == v
  {
    if exists r | r in rows :: Key(r, c) == v {
      var r :| r in rows && Key(r, c) == v;
      var i :| 0 <= i < |rows| && rows[i] == r;
      assert ColumnOf(rows, c)[i] == v;
    }
  }

  /**
   The sessions loop for one subject (lines 58-63): the subject's distinct
   sessions, in first-seen order, whose directory exists.
   */
  method SessionsToRemove(ftqDf: seq<ParsedSeries>, subject: string, top: string, dirs: set<string>)
    returns (temp: seq<string>)
    ensures NoDup(temp)
    ensures forall ses :: ses in temp <==>
      (exists r | r in ftqDf :: r.sub == subject && r.ses == ses) && SessionDir(top, subject, ses) in dirs
  {
    var subDf := Select(ftqDf, SubCol, subject);
    var sessions := Unique(ColumnOf(subDf, SesCol));
    temp := [];
    for j := 0 to |sessions|
      invariant NoDup(temp)
      invariant forall ses :: ses in temp <==> ses in sessions[..j] && SessionDir(top, subject, ses) in dirs
    {
      assert sessions[..j + 1] == sessions[..j] + [sessions[j]];
      if SessionDir(top, subject, sessions[j]) in dirs {
        assert sessions[j] !in sessions[..j];
        temp := temp + [sessions[j]];
      }
    }
    assert sessions[..|sessions|] == sessions;
    SelectMembers(ftqDf, SubCol, subject);
    forall ses
      ensures ses in sessions <==> exists r | r in ftqDf :: r.sub == subject && r.ses == ses
    {
      ColumnMembers(subDf, SesCol, ses);
    }
  }

  /** `rm_dirs` and its key order after visiting the subjects in `seen`. */
  ghost predicate RemovalsUpTo(notDone: seq<string>, top: string, dirs: set<string>, seen: seq<string>,
                               rmDirs: map<string, seq<string>>, order: seq<string>)
  {
    && NoDup(order) && (forall s :: s in order <==> s in rmDirs)
    && (forall s :: s in rmDirs ==> s in seen)
    && (forall s | s in seen :: s in rmDirs <==> exists ses :: ToRemove(notDone, top, dirs, s, ses))
    && (forall s | s in rmDirs :: NoDup(rmDirs[s]) && forall ses :: ses in rmDirs[s] <==> ToRemove(notDone, top, dirs, s, ses))
  }

  /** Visiting one more subject: it gets an entry exactly when it has sessions to remove. */
  lemma RemovalStep(notDone: seq<string>, top: string, dirs: set<string>, seen: seq<string>,
                    rmDirs: map<string, seq<string>>, order: seq<string>, subject: string, temp: seq<string>)
    requires RemovalsUpTo(notDone, top, dirs, seen, rmDirs, order) && subject !in seen
    requires NoDup(temp) && forall ses :: ses in temp <==> ToRemove(notDone, top, dirs, subject, ses)
    ensures temp != [] ==> RemovalsUpTo(notDone, top, dirs, seen + [subject], rmDirs[subject := temp], order + [subject])
    ensures temp == [] ==> RemovalsUpTo(notDone, top, dirs, seen + [subject], rmDirs, order)
  {
    if temp != [] {
      assert ToRemove(notDone, top, dirs, subject, temp[0]);
    }
  }

  /**
   The removal list (lines 46-65): for each subject of a four-part not-done
   identifier, in first-seen order, its sessions to remove; a subject left
   with none gets no entry. `order` is the dictionary's key order.
   */
  method RemovalList(notDone: seq<string>, top: string, dirs: set<string>)
    returns (rmDirs: map<string, seq<string>>, order: seq<string>)
    ensures NoDup(order) && forall s :: s in order <==> s in rmDirs
    ensures forall s :: s in rmDirs <==> exists ses :: ToRemove(notDone, top, dirs, s, ses)
    ensures forall s | s in rmDirs :: NoDup(rmDirs[s]) && forall ses :: ses in rmDirs[s] <==> ToRemove(notDone, top, dirs, s, ses)
  {
    var ftqDf, _ := ParseIds(notDone);
    var subjects := Unique(ColumnOf(ftqDf, SubCol));
    rmDirs, order := map[], [];
    for i := 0 to |subjects|
      invariant RemovalsUpTo(notDone, top, dirs, subjects[..i], rmDirs, order)
    {
      var subject := subjects[i];
      assert subjects[..i + 1] == subjects[..i] + [subject];
      var temp := SessionsToRemove(ftqDf, subject, top, dirs);
      forall ses
        ensures ses in temp <==> ToRemove(notDone, top, dirs, subject, ses)
      {
        PairsOfParsed(notDone, subject, ses);
      }
      RemovalStep(notDone, top, dirs, subjects[..i], rmDirs, order, subject, temp);
      if temp != [] {
        rmDirs := rmDirs[subject := temp];
        order := order + [subject];
      }
    }
    assert subjects[..|subjects|] == subjects;
    forall s | exists ses :: ToRemove(notDone, top, dirs, s, ses)
      ensures s in subjects
    {
      var ses :| ToRemove(notDone, top, dirs, s, ses);
      PairsOfParsed(notDone, s, ses);
      ColumnMembers(ftqDf, SubCol, s);
    }
  }

  /** What is written to remove_before_conversion.txt (lines 68-71): each listed session's directory, subject by subject. */
  function RemovalLines(top: string, rmDirs: map<string, seq<string>>, order: seq<string>): seq<string>
    requires forall s | s in order :: s in rmDirs
  {
    if order == [] then []
    else
      var n := |order| - 1;
      var s := order[n];
      RemovalLines(top, rmDirs, order[..n]) + seq(|rmDirs[s]|, j requires 0 <= j < |rmDirs[s]| => SessionDir(top, s, rmDirs[s][j]))
  }

  /** Each line of the removal file is the directory of a listed session, and every listed session has its line. */
  lemma {:induction false} RemovalLinesListed(top: string, rmDirs: map<string, seq<string>>, order: seq<string>)
    requires forall s | s in order :: s in rmDirs
    ensures forall line :: line in RemovalLines(top, rmDirs, order) <==>
      exists s, ses | s in order && ses in rmDirs[s] :: line == SessionDir(top, s, ses)
  {
    if order != [] {
      var n := |order| - 1;
      var s := order[n];
      RemovalLinesListed(top, rmDirs, order[..n]);
      assert order == order[..n] + [s];
      var tail := seq(|rmDirs[s]|, j requires 0 <= j < |rmDirs[s]| => SessionDir(top, s, rmDirs[s][j]));
      forall line
        ensures line in tail <==> exists ses | ses in rmDirs[s] :: line == SessionDir(top, s, ses)
      {
        if exists ses | ses in rmDirs[s] :: line == SessionDir(top, s, ses) {
          var ses :| ses in rmDirs[s] && line == SessionDir(top, s, ses);
          var j :| 0 <= j < |rmDirs[s]| && rmDirs[s][j] == ses;
          assert tail[j] == line;
        }
      }
    }
  }

  /** The three classes of a cleaned QC row (lines 78-87). */
  datatype RowClass = ErrorRow | HaveRow | NotHaveRow

  /**
   An identifier that does not split into four parts is an error; otherwise
   its session directory decides whether the session is already there.
   */
  function ClassOf(id: string, top: string, dirs: set<string>): RowClass
  {
    var temp := Split(id, '_');
    if |temp| != 4 then ErrorRow
    else if SessionDir(top, temp[0], temp[1]) in dirs then HaveRow
    else NotHaveRow
  }

  /** The rows of one class, in table order. */
  function OfClass(rows: seq<QcRow>, c: RowClass, top: string, dirs: set<string>): seq<QcRow>
  {
    if rows == [] then []
    else
      var last := rows[|rows| - 1];
      OfClass(rows[..|rows| - 1], c, top, dirs) + (if ClassOf(last.ftqSeriesId, top, dirs) == c then [last] else [])
  }

  /** `df.drop(drop).reset_index(drop=True)`: the rows whose position is not listed, in table order. */
  function Dropped(rows: seq<QcRow>, drop: seq<nat>): seq<QcRow>
  {
    if rows == [] then []
    else
      var n := |rows| - 1;
      Dropped(rows[..n], drop) + (if n in drop then [] else [rows[n]])
  }

  /** Dropping depends only on which positions of the table are listed. */
  lemma {:induction false} DroppedSamePositions(rows: seq<QcRow>, a: seq<nat>, b: seq<nat>)
    requires forall k | 0 <= k < |rows| :: k in a <==> k in b
    ensures Dropped(rows, a) == Dropped(rows, b)
  {
    if rows != [] {
      DroppedSamePositions(rows[..|rows| - 1], a, b);
    }
  }

  /** Positions strictly increase along the list. */
  predicate Increasing(xs: seq<nat>)
  {
    forall k | 0 <= k < |xs| - 1 :: xs[k] < xs[k + 1]
  }

  lemma IncreasingSnoc(xs: seq<nat>, x: nat)
    requires Increasing(xs) && forall k | k in xs :: k < x
    ensures Increasing(xs + [x])
  {
    if xs != [] {
      assert xs[|xs| - 1] in xs;
    }
  }

  /** The lists the partition loop has built after looking at the first `index` rows. */
  ghost predicate PartitionedUpTo(rows: seq<QcRow>, index: nat, top: string, dirs: set<string>,
                            errors: seq<string>, have: seq<string>, notHave: seq<string>, dropIdx: seq<nat>)
    requires index <= |rows|
  {
    && errors == SeriesIds(OfClass(rows[..index], ErrorRow, top, dirs))
    && have == SeriesIds(OfClass(rows[..index], HaveRow, top, dirs))
    && notHave == SeriesIds(OfClass(rows[..index], NotHaveRow, top, dirs))
    && Increasing(dropIdx) && (forall k | k in dropIdx :: k < index)
    && (forall i :: i in dropIdx <==> 0 <= i < index && ClassOf(rows[i].ftqSeriesId, top, dirs) != NotHaveRow)
    && Dropped(rows[..index], dropIdx) == OfClass(rows[..index], NotHaveRow, top, dirs)
  }

  /** What one turn of the partition loop does with row `index`, by its class. */
  predicate PartitionTurn(id: string, index: nat, c: RowClass,
                  errors: seq<string>, have: seq<string>, notHave: seq<string>, dropIdx: seq<nat>,
                  errors': seq<string>, have': seq<string>, notHave': seq<string>, dropIdx': seq<nat>)
  {
    match c
    case ErrorRow => errors' == errors + [id] && have' == have && notHave' == notHave && dropIdx' == dropIdx + [index]
    case HaveRow => errors' == errors && have' == have + [id] && notHave' == notHave && dropIdx' == dropIdx + [index]
    case NotHaveRow => errors' == errors && have' == have && notHave' == notHave + [id] && dropIdx' == dropIdx
  }

  /**
   The partition loop (lines 73-87): each row's identifier goes to the list of
   its class, and the positions of error and have rows are collected in
   `dropIdx`; what is left after dropping them is the not-have rows in order.
   */
  method Partition(rows: seq<QcRow>, top: string, dirs: set<string>)
    returns (errors: seq<string>, have: seq<string>, notHave: seq<string>, dropIdx: seq<nat>)
    ensures errors == SeriesIds(OfClass(rows, ErrorRow, top, dirs))
    ensures have == SeriesIds(OfClass(rows, HaveRow, top, dirs))
    ensures notHave == SeriesIds(OfClass(rows, NotHaveRow, top, dirs))
    ensures Increasing(dropIdx)
    ensures forall i :: i in dropIdx <==> 0 <= i < |rows| && ClassOf(rows[i].ftqSeriesId, top, dirs) != NotHaveRow
    ensures Dropped(rows, dropIdx) == OfClass(rows, NotHaveRow, top, dirs)
  {
    errors, have, notHave, dropIdx := [], [], [], [];
    for index := 0 to |rows|
      invariant PartitionedUpTo(rows, index, top, dirs, errors, have, notHave, dropIdx)
    {
      var row := rows[index];
      ghost var e, h, n, d := errors, have, notHave, dropIdx;
      var temp := Split(row.ftqSeriesId, '_');
      if !(|temp| == 4) {
        errors := errors + [row.ftqSeriesId];
        dropIdx := dropIdx + [index];
      } else {
        if SessionDir(top, temp[0], temp[1]) in dirs {
          dropIdx := dropIdx + [index];
          have := have + [row.ftqSeriesId];
        } else {
          notHave := notHave + [row.ftqSeriesId];
        }
      }
      PartitionStep(rows, index, top, dirs, e, h, n, d, errors, have, notHave, dropIdx);
    }
    assert rows[..|rows|] == rows;
  }

  /** One turn of the partition loop keeps the lists in step with the rows seen. */
  lemma PartitionStep(rows: seq<QcRow>, index: nat, top: string, dirs: set<string>,
                      errors: seq<string>, have: seq<string>, notHave: seq<string>, dropIdx: seq<nat>,
                      errors': seq<string>, have': seq<string>, notHave': seq<string>, dropIdx': seq<nat>)
    requires index < |rows|
    requires PartitionedUpTo(rows, index, top, dirs, errors, have, notHave, dropIdx)
    requires PartitionTurn(rows[index].ftqSeriesId, index, ClassOf(rows[index].ftqSeriesId, top, dirs),
                   errors, have, notHave, dropIdx, errors', have', notHave', dropIdx')
    ensures PartitionedUpTo(rows, index + 1, top, dirs, errors', have', notHave', dropIdx')
  {
    var next := rows[..index + 1];
    assert next[..index] == rows[..index];
    DroppedSamePositions(rows[..index], dropIdx, dropIdx');
    if dropIdx' != dropIdx {
      IncreasingSnoc(dropIdx, index);
    }
  }

  /** The identifier column of a table grown by one row. */
  lemma SeriesIdsSnoc(rows: seq<QcRow>, x: QcRow)
    ensures SeriesIds(rows + [x]) == SeriesIds(rows) + [x.ftqSeriesId]
  {
    assert SeriesIds(rows + [x])[..|rows|] == SeriesIds(rows);
  }

  /** Adding one row adds its identifier to its own class and to no other. */
  lemma ClassSnoc(rows: seq<QcRow>, x: QcRow, c: RowClass, top: string, dirs: set<string>)
    ensures SeriesIds(OfClass(rows + [x], c, top, dirs))
         == SeriesIds(OfClass(rows, c, top, dirs)) + (if ClassOf(x.ftqSeriesId, top, dirs) == c then [x.ftqSeriesId] else [])
  {
    assert (rows + [x])[..|rows|] == rows;
    if ClassOf(x.ftqSeriesId, top, dirs) == c {
      SeriesIdsSnoc(OfClass(rows, c, top, dirs), x);
    }
  }

  /** Every cleaned row is in exactly one class, so the three lists together hold each identifier as often as the table does. */
  lemma {:induction false} ClassesCover(rows: seq<QcRow>, top: string, dirs: set<string>)
    ensures multiset(SeriesIds(OfClass(rows, ErrorRow, top, dirs))) + multiset(SeriesIds(OfClass(rows, HaveRow, top, dirs)))
      + multiset(SeriesIds(OfClass(rows, NotHaveRow, top, dirs))) == multiset(SeriesIds(rows))
  {
    if rows != [] {
      var init, x := rows[..|rows| - 1], rows[|rows| - 1];
      assert rows == init + [x];
      ClassesCover(init, top, dirs);
      SeriesIdsSnoc(init, x);
      ClassSnoc(init, x, ErrorRow, top, dirs);
      ClassSnoc(init, x, HaveRow, top, dirs);
      ClassSnoc(init, x, NotHaveRow, top, dirs);
    }
  }

  /** A row is kept exactly when its identifier splits into four parts and its session directory does not exist. */
  lemma {:induction false} OfClassMembers(rows: seq<QcRow>, c: RowClass, top: string, dirs: set<string>)
    ensures forall x :: x in OfClass(rows, c, top, dirs) <==> x in rows && ClassOf(x.ftqSeriesId, top, dirs) == c
  {
    if rows != [] {
      OfClassMembers(rows[..|rows| - 1], c, top, dirs);
      assert rows == rows[..|rows| - 1] + [rows[|rows| - 1]];
    }
  }

  /**
   The subject list (line 95): `sub-` followed by the subject key with its
   underscores removed, once per distinct value.
   */
  function SubjectSet(rows: seq<QcRow>): (r: set<string>)
    ensures forall x | x in r :: "sub-" <= x && '_' !in x
    ensures forall i | 0 <= i < |rows| :: "sub-" + RemoveChar(rows[i].subjectkey, '_') in r
  {
    set i | 0 <= i < |rows| :: "sub-" + RemoveChar(rows[i].subjectkey, '_')
  }

  /**
   The removal list and file are right for `notDone`: each subject with a
   session to remove has an entry listing exactly those sessions, once each,
   and the file has exactly their directories.
   */
  ghost predicate RemovalsFor(notDone: seq<string>, top: string, dirs: set<string>,
                              rmDirs: map<string, seq<string>>, order: seq<string>, removals: seq<string>)
  {
    && NoDup(order) && (forall s :: s in order <==> s in rmDirs)
    && (forall s :: s in rmDirs <==> exists ses :: ToRemove(notDone, top, dirs, s, ses))
    && (forall s | s in rmDirs :: NoDup(rmDirs[s]) && forall ses :: ses in rmDirs[s] <==> ToRemove(notDone, top, dirs, s, ses))
    && (forall line :: line in removals <==> exists s, ses | ToRemove(notDone, top, dirs, s, ses) :: line == SessionDir(top, s, ses))
  }

  /** Lines 46-71: the removal list of the not-done series and the text of the removal file. */
  method Removals(notDone: seq<string>, top: string, dirs: set<string>)
    returns (rmDirs: map<string, seq<string>>, order: seq<string>, removals: seq<string>)
    ensures RemovalsFor(notDone, top, dirs, rmDirs, order, removals)
  {
    rmDirs, order := RemovalList(notDone, top, dirs);
    removals := RemovalLines(top, rmDirs, order);
    RemovalLinesListed(top, rmDirs, order);
  }

  /**
   The partition of the cleaned rows is right: each list holds the
   identifiers of its class in table order, `dropIdx` lists in increasing
   order exactly the positions of error and have rows, and dropping them
   leaves the not-have rows.
   */
  ghost predicate PartitionFor(clean: seq<QcRow>, top: string, dirs: set<string>,
                               errors: seq<string>, have: seq<string>, notHave: seq<string>, dropIdx: seq<nat>)
  {
    && errors == SeriesIds(OfClass(clean, ErrorRow, top, dirs))
    && have == SeriesIds(OfClass(clean, HaveRow, top, dirs))
    && notHave == SeriesIds(OfClass(clean, NotHaveRow, top, dirs))
    && Increasing(dropIdx)
    && (forall i :: i in dropIdx <==> 0 <= i < |clean| && ClassOf(clean[i].ftqSeriesId, top, dirs) != NotHaveRow)
    && Dropped(clean, dropIdx) == OfClass(clean, NotHaveRow, top, dirs)
  }

  /** What the script leaves behind. */
  datatype Prepared = Prepared(
    layout: Layout,
    rmDirs: map<string, seq<string>>,
    rmOrder: seq<string>,
    removals: seq<string>,
    errors: seq<string>,
    have: seq<string>,
    notHave: seq<string>,
    dropIdx: seq<nat>,
    final: seq<QcRow>,
    subjects: seq<string>)

  /**
   The script on an already-read QC table `qcOg` (row 0 is the description
   row), with `files` and `dirs` the paths that are files and directories.
   None when the table has no row 0, where `drop(0)` raises KeyError.
   */
  method PrepareConversion(qcOg: seq<QcRow>, top: string, files: set<string>, dirs: set<string>) returns (r: Option<Prepared>)
    ensures r.None? <==> qcOg == []
    ensures r.Some? ==> |r.value.layout.doneFtq| == |r.value.layout.doneYesno|
    ensures r.Some? ==>
      var p := r.value;
      var clean := NotRecalled(qcOg[1..]);
      && p.layout == Resolve(ParsedRows(SeriesIds(clean)), Disk(top, files))
      && RemovalsFor(NotDone(p.layout.doneFtq, p.layout.doneYesno), top, dirs, p.rmDirs, p.rmOrder, p.removals)
      && PartitionFor(clean, top, dirs, p.errors, p.have, p.notHave, p.dropIdx)
      && p.final == [qcOg[0]] + OfClass(clean, NotHaveRow, top, dirs)
      && NoDup(p.subjects) && (forall x :: x in p.subjects <==> x in SubjectSet(OfClass(clean, NotHaveRow, top, dirs)))
  {
    if qcOg == [] {
      return None;
    }
    var qcClean := NotRecalled(qcOg[1..]);
    var fin, mapping, ftqErrors, doneFtq, doneYesno, missing := FtqMap.FtqMap(SeriesIds(qcClean), top, files);
    var layout := Layout(fin, mapping, doneFtq, doneYesno, missing);
    var rmDirs, order, removals := Removals(NotDone(doneFtq, doneYesno), top, dirs);
    var errors, have, notHave, dropIdx := Partition(qcClean, top, dirs);
    assert PartitionFor(qcClean, top, dirs, errors, have, notHave, dropIdx);
    var kept := Dropped(qcClean, dropIdx);
    var subjects := ListOf(SubjectSet(kept));
    return Some(Prepared(layout, rmDirs, order, removals, errors, have, notHave, dropIdx, [qcOg[0]] + kept, subjects));
  }
}
