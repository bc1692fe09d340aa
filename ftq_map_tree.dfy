/**
 The shape of `fin` after ftq_map: every parsed row's session has an entry,
 even when none of its series types is handled, and each of the four lists
 of an entry is the concatenation, in processing order, of the name lists of
 the series checked into it.
 */
module FtqMapTree {
  import opened Wrappers
  import opened Ordering
  import opened Naming
  import opened FtqMapSpec

  /** `fin[sub][ses][b]` for a bucket value. */
  function Bucketed(bs: Buckets, b: Bucket): seq<string>
  {
    match b
    case Anat => bs.anat
    case Dwi => bs.dwi
    case Fmap => bs.fmap
    case Func => bs.func
  }

  /** `fin[sub][ses]` exists. */
  predicate Present(fin: Tree, sub: string, ses: string)
  {
    sub in fin && ses in fin[sub]
  }

  /** The names the checks of `plan` file under bucket b of session (sub, ses), in order. */
  function Filed(plan: seq<Action>, sub: string, ses: string, b: Bucket): seq<string>
  {
    if plan == [] then []
    else
      Filed(plan[..|plan| - 1], sub, ses, b) + FiledBy(plan[|plan| - 1], sub, ses, b)
  }

  /** The names one action files under bucket b of session (sub, ses). */
  function FiledBy(a: Action, sub: string, ses: string, b: Bucket): seq<string>
  {
    if a.Check? && a.sub == sub && a.ses == ses && a.bucket == b then a.names else []
  }

  /** Session (sub, ses) was opened by `plan` and its subject was not reopened since. */
  predicate Opened(plan: seq<Action>, sub: string, ses: string)
  {
    if plan == [] then false
    else
      var a := plan[|plan| - 1];
      if a == OpenSession(sub, ses) then true
      else if a == OpenSubject(sub) then false
      else Opened(plan[..|plan| - 1], sub, ses)
  }

  /**
   `fin` agrees with the actions taken so far: an existing entry holds what
   was filed into it, nothing was filed into a missing one, and every opened
   session exists.
   */
  ghost predicate TreeMatches(fin: Tree, plan: seq<Action>)
  {
    && (forall sub, ses, b ::
          && (Present(fin, sub, ses) ==> Bucketed(fin[sub][ses], b) == Filed(plan, sub, ses, b))
          && (!Present(fin, sub, ses) ==> Filed(plan, sub, ses, b) == []))
    && (forall sub, ses :: Opened(plan, sub, ses) ==> Present(fin, sub, ses))
  }

  /** An action may reset an entry only when nothing has been filed into it yet. */
  ghost predicate Fresh(plan: seq<Action>, a: Action)
  {
    && (a.OpenSubject? ==> forall ses, b :: Filed(plan, a.sub, ses, b) == [])
    && (a.OpenSession? ==> forall b :: Filed(plan, a.sub, a.ses, b) == [])
  }

  /** Each action of `plan` is fresh after `head` and the actions before it. */
  ghost predicate OrderlyAfter(head: seq<Action>, plan: seq<Action>)
  {
    forall j | 0 <= j < |plan| :: Fresh(head + plan[..j], plan[j])
  }

  lemma FiledSnoc(plan: seq<Action>, a: Action, sub: string, ses: string, b: Bucket)
    ensures Filed(plan + [a], sub, ses, b) == Filed(plan, sub, ses, b) + FiledBy(a, sub, ses, b)
  {
    assert (plan + [a])[..|plan|] == plan;
  }

  lemma OpenedSnoc(plan: seq<Action>, a: Action, sub: string, ses: string)
    ensures Opened(plan + [a], sub, ses) ==
      if a == OpenSession(sub, ses) then true else if a == OpenSubject(sub) then false else Opened(plan, sub, ses)
  {
    assert (plan + [a])[..|plan|] == plan;
  }

  lemma {:induction false} FiledAppend(p: seq<Action>, q: seq<Action>, sub: string, ses: string, b: Bucket)
    ensures Filed(p + q, sub, ses, b) == Filed(p, sub, ses, b) + Filed(q, sub, ses, b)
  {
    if q == [] {
      assert p + q == p;
    } else {
      var n := |q| - 1;
      FiledAppend(p, q[..n], sub, ses, b);
      assert p + q == (p + q[..n]) + [q[n]];
      FiledSnoc(p + q[..n], q[n], sub, ses, b);
      assert q[..n] + [q[n]] == q;
      FiledSnoc(q[..n], q[n], sub, ses, b);
      Associative(Filed(p, sub, ses, b), Filed(q[..n], sub, ses, b), FiledBy(q[n], sub, ses, b));
    }
  }

  lemma Associative(x: seq<string>, y: seq<string>, z: seq<string>)
    ensures (x + y) + z == x + (y + z)
  {
  }

  /** Nothing is filed under a session no check of the plan names. */
  lemma {:induction false} FiledNone(plan: seq<Action>, sub: string, ses: string, b: Bucket)
    requires forall j | 0 <= j < |plan| :: !(plan[j].Check? && plan[j].sub == sub && plan[j].ses == ses)
    ensures Filed(plan, sub, ses, b) == []
  {
    if plan != [] {
      FiledNone(plan[..|plan| - 1], sub, ses, b);
    }
  }

  /** Opening a subject empties its entry; nothing had been filed under it. */
  lemma StepSubject(lay: Layout, files: set<string>, plan: seq<Action>, x: string)
    requires TreeMatches(lay.fin, plan) && Fresh(plan, OpenSubject(x))
    ensures TreeMatches(Step(lay, files, OpenSubject(x)).fin, plan + [OpenSubject(x)])
  {
    var a := OpenSubject(x);
    var fin := Step(lay, files, a).fin;
    assert fin == lay.fin[x := map[]];
    forall sub, ses, b
      ensures Present(fin, sub, ses) ==> Bucketed(fin[sub][ses], b) == Filed(plan + [a], sub, ses, b)
      ensures !Present(fin, sub, ses) ==> Filed(plan + [a], sub, ses, b) == []
    {
      FiledSnoc(plan, a, sub, ses, b);
    }
    forall sub, ses | Opened(plan + [a], sub, ses)
      ensures Present(fin, sub, ses)
    {
      OpenedSnoc(plan, a, sub, ses);
    }
  }

  /** Opening a session gives it four empty lists; nothing had been filed under it. */
  lemma StepSession(lay: Layout, files: set<string>, plan: seq<Action>, x: string, y: string)
    requires TreeMatches(lay.fin, plan) && Fresh(plan, OpenSession(x, y))
    ensures TreeMatches(Step(lay, files, OpenSession(x, y)).fin, plan + [OpenSession(x, y)])
  {
    var a := OpenSession(x, y);
    var fin := Step(lay, files, a).fin;
    assert fin == lay.fin[x := SubTree(lay.fin, x)[y := EMPTY_BUCKETS]];
    forall sub, ses, b
      ensures Present(fin, sub, ses) ==> Bucketed(fin[sub][ses], b) == Filed(plan + [a], sub, ses, b)
      ensures !Present(fin, sub, ses) ==> Filed(plan + [a], sub, ses, b) == []
    {
      FiledSnoc(plan, a, sub, ses, b);
      if sub == x && ses != y && Present(fin, sub, ses) {
        assert Present(lay.fin, sub, ses);
      }
    }
    forall sub, ses | Opened(plan + [a], sub, ses)
      ensures Present(fin, sub, ses)
    {
      OpenedSnoc(plan, a, sub, ses);
    }
  }

  /** A check extends one list of its session, creating the entry if need be. */
  lemma StepCheck(lay: Layout, files: set<string>, plan: seq<Action>, a: Action)
    requires a.Check? && TreeMatches(lay.fin, plan)
    ensures TreeMatches(Step(lay, files, a).fin, plan + [a])
  {
    var fin := Step(lay, files, a).fin;
    assert fin == ExtendTree(lay.fin, a.sub, a.ses, a.bucket, a.names);
    forall sub, ses, b
      ensures Present(fin, sub, ses) ==> Bucketed(fin[sub][ses], b) == Filed(plan + [a], sub, ses, b)
      ensures !Present(fin, sub, ses) ==> Filed(plan + [a], sub, ses, b) == []
    {
      FiledSnoc(plan, a, sub, ses, b);
      if sub == a.sub && ses == a.ses {
        var before := BucketsAt(lay.fin, sub, ses);
        assert fin[sub][ses] == ExtendBucket(before, a.bucket, a.names);
        assert Bucketed(before, b) == Filed(plan, sub, ses, b);
      } else if sub == a.sub && Present(fin, sub, ses) {
        assert Present(lay.fin, sub, ses);
      }
    }
    forall sub, ses | Opened(plan + [a], sub, ses)
      ensures Present(fin, sub, ses)
    {
      OpenedSnoc(plan, a, sub, ses);
    }
  }

  /** Applying an orderly run of actions keeps `fin` in agreement with them. */
  lemma {:induction false} ApplyMatches(lay: Layout, files: set<string>, plan: seq<Action>)
    requires TreeMatches(lay.fin, []) && OrderlyAfter([], plan)
    ensures TreeMatches(Apply(lay, files, plan).fin, plan)
  {
    if plan != [] {
      var n := |plan| - 1;
      var init, a := plan[..n], plan[n];
      assert OrderlyAfter([], init) by {
        forall j | 0 <= j < n
          ensures Fresh([] + init[..j], init[j])
        {
          assert init[..j] == plan[..j];
          assert Fresh([] + plan[..j], plan[j]);
        }
      }
      ApplyMatches(lay, files, init);
      assert Fresh([] + init, a);
      assert [] + init == init;
      var mid := Apply(lay, files, init);
      assert init + [a] == plan;
      match a
      case OpenSubject(x) => StepSubject(mid, files, init, x);
      case OpenSession(x, y) => StepSession(mid, files, init, x, y);
      case Check(_, _, _, _, _, _) => StepCheck(mid, files, init, a);
    }
  }

  lemma OrderlyAppend(head: seq<Action>, p: seq<Action>, q: seq<Action>)
    requires OrderlyAfter(head, p) && OrderlyAfter(head + p, q)
    ensures OrderlyAfter(head, p + q)
  {
    forall j | 0 <= j < |p + q|
      ensures Fresh(head + (p + q)[..j], (p + q)[j])
    {
      if j < |p| {
        assert (p + q)[..j] == p[..j];
      } else {
        assert head + (p + q)[..j] == (head + p) + q[..j - |p|];
      }
    }
  }


  // ---------------------------------------------------------------------------
  // Blocks of actions

  /** Every action is a check of session (sub, ses). */
  predicate ChecksIn(plan: seq<Action>, sub: string, ses: string)
  {
    forall j | 0 <= j < |plan| :: plan[j].Check? && plan[j].sub == sub && plan[j].ses == ses
  }

  /** Every action concerns subject sub, and none reopens a subject. */
  predicate Within(plan: seq<Action>, sub: string)
  {
    forall j | 0 <= j < |plan| :: plan[j].sub == sub && !plan[j].OpenSubject?
  }

  /** Every action concerns subject sub. */
  predicate Under(plan: seq<Action>, sub: string)
  {
    forall j | 0 <= j < |plan| :: plan[j].sub == sub
  }

  /** The actions of one session: its opening, then checks of that session only. */
  predicate SessionBlock(plan: seq<Action>, sub: string, ses: string)
  {
    |plan| >= 1 && plan[0] == OpenSession(sub, ses) && ChecksIn(plan[1..], sub, ses)
  }

  lemma ChecksInAppend(p: seq<Action>, q: seq<Action>, sub: string, ses: string)
    requires ChecksIn(p, sub, ses) && ChecksIn(q, sub, ses)
    ensures ChecksIn(p + q, sub, ses)
  {
    forall j | 0 <= j < |p + q|
      ensures (p + q)[j].Check? && (p + q)[j].sub == sub && (p + q)[j].ses == ses
    {
      if j >= |p| {
        assert (p + q)[j] == q[j - |p|];
      }
    }
  }

  lemma WithinAppend(p: seq<Action>, q: seq<Action>, sub: string)
    requires Within(p, sub) && Within(q, sub)
    ensures Within(p + q, sub)
  {
    forall j | 0 <= j < |p + q|
      ensures (p + q)[j].sub == sub && !(p + q)[j].OpenSubject?
    {
      if j >= |p| {
        assert (p + q)[j] == q[j - |p|];
      }
    }
  }

  lemma UnderAppend(p: seq<Action>, q: seq<Action>, sub: string)
    requires Under(p, sub) && Under(q, sub)
    ensures Under(p + q, sub)
  {
    forall j | 0 <= j < |p + q|
      ensures (p + q)[j].sub == sub
    {
      if j >= |p| {
        assert (p + q)[j] == q[j - |p|];
      }
    }
  }

  lemma PrefixDistinct(p: string, x: string, y: string)
    requires x != y
    ensures p + x != p + y
  {
    assert x == (p + x)[|p|..];
    assert y == (p + y)[|p|..];
  }

  lemma BlockWithin(block: seq<Action>, sub: string, ses: string)
    requires SessionBlock(block, sub, ses)
    ensures Within(block, sub)
  {
    forall j | 0 <= j < |block|
      ensures block[j].sub == sub && !block[j].OpenSubject?
    {
      if j > 0 {
        assert block[j] == block[1..][j - 1];
      }
    }
  }

  /** A session's block files nothing under another session of the subject. */
  lemma BlockElsewhere(block: seq<Action>, sub: string, ses: string, other: string, b: Bucket)
    requires SessionBlock(block, sub, ses) && other != ses
    ensures Filed(block, sub, other, b) == []
  {
    forall j | 0 <= j < |block|
      ensures !(block[j].Check? && block[j].sub == sub && block[j].ses == other)
    {
      if j > 0 {
        assert block[j] == block[1..][j - 1];
      }
    }
    FiledNone(block, sub, other, b);
  }

  /** A subject's actions file nothing under another subject. */
  lemma UnderElsewhere(plan: seq<Action>, sub: string, other: string, ses: string, b: Bucket)
    requires Under(plan, sub) && other != sub
    ensures Filed(plan, other, ses, b) == []
  {
    FiledNone(plan, other, ses, b);
  }

  lemma FiledAppendEmpty(p: seq<Action>, q: seq<Action>, sub: string, ses: string)
    requires forall b :: Filed(p, sub, ses, b) == []
    requires forall b :: Filed(q, sub, ses, b) == []
    ensures forall b :: Filed(p + q, sub, ses, b) == []
  {
    forall b
      ensures Filed(p + q, sub, ses, b) == []
    {
      FiledAppend(p, q, sub, ses, b);
    }
  }

  /** A session's block is orderly when nothing was filed under it before. */
  lemma BlockOrderly(head: seq<Action>, block: seq<Action>, sub: string, ses: string)
    requires SessionBlock(block, sub, ses)
    requires forall b :: Filed(head, sub, ses, b) == []
    ensures OrderlyAfter(head, block)
  {
    forall j | 0 <= j < |block|
      ensures Fresh(head + block[..j], block[j])
    {
      if j == 0 {
        assert head + block[..0] == head;
      } else {
        assert block[j] == block[1..][j - 1];
      }
    }
  }

  /** A session's block leaves that session open. */
  lemma BlockOpened(block: seq<Action>, sub: string, ses: string)
    requires SessionBlock(block, sub, ses)
    ensures Opened(block, sub, ses)
  {
    OpenedSnoc([], block[0], sub, ses);
    assert [] + [block[0]] == [block[0]];
    forall j | 0 <= j < |block[1..]|
      ensures block[1..][j] != OpenSubject(sub)
    {
    }
    OpenedAppend([block[0]], block[1..], sub, ses);
    assert [block[0]] + block[1..] == block;
  }

  lemma {:induction false} OpenedAppend(p: seq<Action>, q: seq<Action>, sub: string, ses: string)
    requires Opened(q, sub, ses) || (Opened(p, sub, ses) && forall j | 0 <= j < |q| :: q[j] != OpenSubject(sub))
    ensures Opened(p + q, sub, ses)
  {
    if q == [] {
      assert p + q == p;
    } else {
      var n := |q| - 1;
      assert p + q == (p + q[..n]) + [q[n]];
      OpenedSnoc(p + q[..n], q[n], sub, ses);
      if q[n] != OpenSession(sub, ses) {
        assert q[..n] + [q[n]] == q;
        OpenedSnoc(q[..n], q[n], sub, ses);
        OpenedAppend(p, q[..n], sub, ses);
      }
    }
  }

  /** One more session after orderly ones: still orderly, and the later sessions still untouched. */
  lemma SessionsStep(head: seq<Action>, init: seq<Action>, last: seq<Action>, sub: string, sessions: seq<string>, n: nat)
    requires 0 < n <= |sessions| && NoDup(sessions)
    requires forall ses, b :: Filed(head, sub, ses, b) == []
    requires OrderlyAfter(head, init)
    requires forall j, b | n - 1 <= j < |sessions| :: Filed(init, sub, "ses-" + sessions[j], b) == []
    requires SessionBlock(last, sub, "ses-" + sessions[n - 1])
    ensures OrderlyAfter(head, init + last)
    ensures forall j, b | n <= j < |sessions| :: Filed(init + last, sub, "ses-" + sessions[j], b) == []
  {
    var ses := "ses-" + sessions[n - 1];
    FiledAppendEmpty(head, init, sub, ses);
    BlockOrderly(head + init, last, sub, ses);
    OrderlyAppend(head, init, last);
    forall j, b | n <= j < |sessions|
      ensures Filed(init + last, sub, "ses-" + sessions[j], b) == []
    {
      FiledAppend(init, last, sub, "ses-" + sessions[j], b);
      PrefixDistinct("ses-", sessions[j], sessions[n - 1]);
      BlockElsewhere(last, sub, ses, "ses-" + sessions[j], b);
    }
  }

  /** One more subject after orderly ones: still orderly, and the later subjects still untouched. */
  lemma SubjectsStep(init: seq<Action>, last: seq<Action>, subjects: seq<string>, n: nat)
    requires 0 < n <= |subjects| && NoDup(subjects)
    requires OrderlyAfter([], init) && OrderlyAfter(init, last)
    requires forall j, ses, b | n <= j < |subjects| :: Filed(init, "sub-" + subjects[j], ses, b) == []
    requires Under(last, "sub-" + subjects[n - 1])
    ensures OrderlyAfter([], init + last)
    ensures forall j, ses, b | n <= j < |subjects| :: Filed(init + last, "sub-" + subjects[j], ses, b) == []
  {
    assert [] + init == init;
    OrderlyAppend([], init, last);
    forall j, ses, b | n <= j < |subjects|
      ensures Filed(init + last, "sub-" + subjects[j], ses, b) == []
    {
      FiledAppend(init, last, "sub-" + subjects[j], ses, b);
      PrefixDistinct("sub-", subjects[j], subjects[n - 1]);
      UnderElsewhere(last, "sub-" + subjects[n - 1], "sub-" + subjects[j], ses, b);
    }
  }

  lemma NextUntouched(plan: seq<Action>, subjects: seq<string>, m: nat, sub: string)
    requires m < |subjects| && sub == "sub-" + subjects[m]
    requires forall j, ses, b | m <= j < |subjects| :: Filed(plan, "sub-" + subjects[j], ses, b) == []
    ensures forall ses, b :: Filed(plan, sub, ses, b) == []
  {
  }

  /** A subject's opening followed by orderly actions is orderly when nothing was filed under it before. */
  lemma SubjectBlockOrderly(head: seq<Action>, sub: string, rest: seq<Action>)
    requires forall ses, b :: Filed(head, sub, ses, b) == []
    requires OrderlyAfter(head + [OpenSubject(sub)], rest)
    ensures OrderlyAfter(head, [OpenSubject(sub)] + rest)
  {
    assert OrderlyAfter(head, [OpenSubject(sub)]) by {
      assert head + [OpenSubject(sub)][..0] == head;
    }
    OrderlyAppend(head, [OpenSubject(sub)], rest);
  }

  lemma FiledAfterOpen(head: seq<Action>, sub: string)
    requires forall ses, b :: Filed(head, sub, ses, b) == []
    ensures forall ses, b :: Filed(head + [OpenSubject(sub)], sub, ses, b) == []
  {
    forall ses, b
      ensures Filed(head + [OpenSubject(sub)], sub, ses, b) == []
    {
      FiledSnoc(head, OpenSubject(sub), sub, ses, b);
    }
  }

  lemma SessionsOpenedStep(init: seq<Action>, last: seq<Action>, sub: string, sessions: seq<string>, n: nat)
    requires 0 < n <= |sessions|
    requires forall j | 0 <= j < n - 1 :: Opened(init, sub, "ses-" + sessions[j])
    requires SessionBlock(last, sub, "ses-" + sessions[n - 1])
    ensures forall j | 0 <= j < n :: Opened(init + last, sub, "ses-" + sessions[j])
  {
    BlockWithin(last, sub, "ses-" + sessions[n - 1]);
    BlockOpened(last, sub, "ses-" + sessions[n - 1]);
    forall j | 0 <= j < n
      ensures Opened(init + last, sub, "ses-" + sessions[j])
    {
      OpenedAppend(init, last, sub, "ses-" + sessions[j]);
    }
  }

  lemma SubjectsOpenedStep(init: seq<Action>, last: seq<Action>, rows: seq<ParsedSeries>, subjects: seq<string>, n: nat)
    requires 0 < n <= |subjects|
    requires forall r | r in rows && r.sub in subjects[..n - 1] :: Opened(init, "sub-" + r.sub, "ses-" + r.ses)
    requires forall r | r in rows && r.sub == subjects[n - 1] :: Opened(last, "sub-" + r.sub, "ses-" + r.ses)
    requires Under(last, "sub-" + subjects[n - 1])
    ensures forall r | r in rows && r.sub in subjects[..n] :: Opened(init + last, "sub-" + r.sub, "ses-" + r.ses)
  {
    assert subjects[..n] == subjects[..n - 1] + [subjects[n - 1]];
    forall r | r in rows && r.sub in subjects[..n]
      ensures Opened(init + last, "sub-" + r.sub, "ses-" + r.ses)
    {
      if r.sub != subjects[n - 1] {
        PrefixDistinct("sub-", r.sub, subjects[n - 1]);
      }
      OpenedAppend(init, last, "sub-" + r.sub, "ses-" + r.ses);
    }
  }

  // ---------------------------------------------------------------------------
  // The plan, level by level

  lemma {:induction false} RunChecksIn(directory: string, k: SeriesKind, s: string, ss: string, group: seq<ParsedSeries>, n: nat)
    requires n <= |group|
    ensures ChecksIn(RunChecks(directory, k, s, ss, group, n), "sub-" + s, "ses-" + ss)
  {
    RunChecksAt(directory, k, s, ss, group, n);
  }

  lemma {:induction false} GroupsPlanIn(directory: string, rows: seq<ParsedSeries>, s: string, ss: string, types: seq<string>, n: nat)
    requires n <= |types|
    ensures ChecksIn(GroupsPlan(directory, rows, s, ss, types, n), "sub-" + s, "ses-" + ss)
  {
    if n > 0 {
      GroupsPlanIn(directory, rows, s, ss, types, n - 1);
      var group := Group(rows, types[n - 1]);
      if KindOf(types[n - 1]).Some? {
        RunChecksIn(directory, KindOf(types[n - 1]).value, s, ss, group, |group|);
      }
      ChecksInAppend(GroupsPlan(directory, rows, s, ss, types, n - 1), GroupPlan(directory, rows, s, ss, types[n - 1]), "sub-" + s, "ses-" + ss);
    }
  }

  lemma SessionPlanShape(directory: string, rows: seq<ParsedSeries>, s: string, ss: string)
    ensures SessionBlock(SessionPlan(directory, rows, s, ss), "sub-" + s, "ses-" + ss)
  {
    var sesRows := Select(rows, SesCol, ss);
    var types := Unique(ColumnOf(sesRows, SeriesCol));
    GroupsPlanIn(directory, sesRows, s, ss, types, |types|);
    assert SessionPlan(directory, rows, s, ss)[1..] == GroupsPlan(directory, sesRows, s, ss, types, |types|);
  }

  /** The actions of the first n sessions of subject s, one block each. */
  function SessionBlocks(directory: string, rows: seq<ParsedSeries>, s: string, sessions: seq<string>, n: nat): (r: seq<seq<Action>>)
    requires n <= |sessions|
    ensures |r| == n
  {
    seq(n, i requires 0 <= i < n => SessionPlan(directory, rows, s, sessions[i]))
  }

  lemma {:induction false} SessionsPlanFlat(directory: string, rows: seq<ParsedSeries>, s: string, sessions: seq<string>, n: nat)
    requires n <= |sessions|
    ensures SessionsPlan(directory, rows, s, sessions, n) == Flatten(SessionBlocks(directory, rows, s, sessions, n))
  {
    if n > 0 {
      SessionsPlanFlat(directory, rows, s, sessions, n - 1);
      var blocks := SessionBlocks(directory, rows, s, sessions, n);
      assert blocks[..n - 1] == SessionBlocks(directory, rows, s, sessions, n - 1);
      assert blocks[..n] == blocks;
      FlattenSnoc(blocks, n);
    }
  }

  /** A subject's sessions, as blocks of the shape SessionBlock. */
  lemma SessionsShape(directory: string, rows: seq<ParsedSeries>, s: string, sessions: seq<string>)
    ensures var blocks := SessionBlocks(directory, rows, s, sessions, |sessions|);
      && SessionsPlan(directory, rows, s, sessions, |sessions|) == Flatten(blocks[..|blocks|])
      && forall i | 0 <= i < |blocks| :: SessionBlock(blocks[i], "sub-" + s, "ses-" + sessions[i])
  {
    var blocks := SessionBlocks(directory, rows, s, sessions, |sessions|);
    SessionsPlanFlat(directory, rows, s, sessions, |sessions|);
    assert blocks[..|blocks|] == blocks;
    forall i | 0 <= i < |sessions|
      ensures SessionBlock(SessionPlan(directory, rows, s, sessions[i]), "sub-" + s, "ses-" + sessions[i])
    {
      SessionPlanShape(directory, rows, s, sessions[i]);
    }
  }

  lemma {:induction false} FlatWithin(blocks: seq<seq<Action>>, sub: string, sessions: seq<string>, n: nat)
    requires n <= |blocks| == |sessions|
    requires forall i | 0 <= i < |blocks| :: SessionBlock(blocks[i], sub, "ses-" + sessions[i])
    ensures Within(Flatten(blocks[..n]), sub)
  {
    if n > 0 {
      FlatWithin(blocks, sub, sessions, n - 1);
      FlattenSnoc(blocks, n);
      BlockWithin(blocks[n - 1], sub, "ses-" + sessions[n - 1]);
      WithinAppend(Flatten(blocks[..n - 1]), blocks[n - 1], sub);
    }
  }

  lemma {:induction false} FlatSessionsOrderly(head: seq<Action>, blocks: seq<seq<Action>>, sub: string, sessions: seq<string>, n: nat)
    requires n <= |blocks| == |sessions| && NoDup(sessions)
    requires forall i | 0 <= i < |blocks| :: SessionBlock(blocks[i], sub, "ses-" + sessions[i])
    requires forall ses, b :: Filed(head, sub, ses, b) == []
    ensures OrderlyAfter(head, Flatten(blocks[..n]))
    ensures forall j, b | n <= j < |sessions| :: Filed(Flatten(blocks[..n]), sub, "ses-" + sessions[j], b) == []
  {
    if n > 0 {
      FlatSessionsOrderly(head, blocks, sub, sessions, n - 1);
      FlattenSnoc(blocks, n);
      SessionsStep(head, Flatten(blocks[..n - 1]), blocks[n - 1], sub, sessions, n);
    }
  }

  lemma {:induction false} FlatSessionsOpened(blocks: seq<seq<Action>>, sub: string, sessions: seq<string>, n: nat)
    requires n <= |blocks| == |sessions|
    requires forall i | 0 <= i < |blocks| :: SessionBlock(blocks[i], sub, "ses-" + sessions[i])
    ensures forall j | 0 <= j < n :: Opened(Flatten(blocks[..n]), sub, "ses-" + sessions[j])
  {
    if n > 0 {
      FlatSessionsOpened(blocks, sub, sessions, n - 1);
      FlattenSnoc(blocks, n);
      SessionsOpenedStep(Flatten(blocks[..n - 1]), blocks[n - 1], sub, sessions, n);
    }
  }

  lemma SubjectPlanUnder(directory: string, rows: seq<ParsedSeries>, s: string)
    ensures Under(SubjectPlan(directory, rows, s), "sub-" + s)
  {
    var subRows := Select(rows, SubCol, s);
    var sessions := Unique(ColumnOf(subRows, SesCol));
    var blocks := SessionBlocks(directory, subRows, s, sessions, |sessions|);
    SessionsShape(directory, subRows, s, sessions);
    FlatWithin(blocks, "sub-" + s, sessions, |sessions|);
    UnderAppend([OpenSubject("sub-" + s)], SessionsPlan(directory, subRows, s, sessions, |sessions|), "sub-" + s);
  }

  /** A subject's actions are orderly when nothing was filed under it before. */
  lemma SubjectOrderly(head: seq<Action>, directory: string, rows: seq<ParsedSeries>, s: string)
    requires forall ses, b :: Filed(head, "sub-" + s, ses, b) == []
    ensures OrderlyAfter(head, SubjectPlan(directory, rows, s))
  {
    var subRows := Select(rows, SubCol, s);
    var sessions := Unique(ColumnOf(subRows, SesCol));
    var blocks := SessionBlocks(directory, subRows, s, sessions, |sessions|);
    SessionsShape(directory, subRows, s, sessions);
    FiledAfterOpen(head, "sub-" + s);
    FlatSessionsOrderly(head + [OpenSubject("sub-" + s)], blocks, "sub-" + s, sessions, |sessions|);
    SubjectBlockOrderly(head, "sub-" + s, SessionsPlan(directory, subRows, s, sessions, |sessions|));
  }

  /** A row of subject s names one of the sessions the subject's actions visit. */
  lemma SessionListed(rows: seq<ParsedSeries>, s: string, r: ParsedSeries)
    requires r in rows && r.sub == s
    ensures r.ses in Unique(ColumnOf(Select(rows, SubCol, s), SesCol))
  {
    var sel := Select(rows, SubCol, s);
    SelectMembers(rows, SubCol, s);
    var i :| 0 <= i < |sel| && sel[i] == r;
    assert ColumnOf(sel, SesCol)[i] == r.ses;
  }

  /** After a subject's actions, the session of each of its rows is open. */
  lemma SubjectOpened(directory: string, rows: seq<ParsedSeries>, s: string)
    ensures forall r | r in rows && r.sub == s :: Opened(SubjectPlan(directory, rows, s), "sub-" + r.sub, "ses-" + r.ses)
  {
    var subRows := Select(rows, SubCol, s);
    var sessions := Unique(ColumnOf(subRows, SesCol));
    var blocks := SessionBlocks(directory, subRows, s, sessions, |sessions|);
    var rest := SessionsPlan(directory, subRows, s, sessions, |sessions|);
    SessionsShape(directory, subRows, s, sessions);
    FlatSessionsOpened(blocks, "sub-" + s, sessions, |sessions|);
    forall r | r in rows && r.sub == s
      ensures Opened([OpenSubject("sub-" + s)] + rest, "sub-" + r.sub, "ses-" + r.ses)
    {
      SessionListed(rows, s, r);
      var j :| 0 <= j < |sessions| && sessions[j] == r.ses;
      OpenedAppend([OpenSubject("sub-" + s)], rest, "sub-" + s, "ses-" + r.ses);
    }
  }

  // ---------------------------------------------------------------------------
  // The subjects, as a concatenation of one block per subject

  function Flatten(blocks: seq<seq<Action>>): seq<Action>
  {
    if blocks == [] then [] else Flatten(blocks[..|blocks| - 1]) + blocks[|blocks| - 1]
  }

  lemma FlattenSnoc(blocks: seq<seq<Action>>, n: nat)
    requires 0 < n <= |blocks|
    ensures Flatten(blocks[..n]) == Flatten(blocks[..n - 1]) + blocks[n - 1]
  {
    assert blocks[..n][..n - 1] == blocks[..n - 1];
  }

  /** The actions of the first n subjects, one block each. */
  function SubjectBlocks(directory: string, rows: seq<ParsedSeries>, subjects: seq<string>, n: nat): (r: seq<seq<Action>>)
    requires n <= |subjects|
    ensures |r| == n
  {
    seq(n, i requires 0 <= i < n => SubjectPlan(directory, rows, subjects[i]))
  }

  lemma {:induction false} SubjectsPlanFlat(directory: string, rows: seq<ParsedSeries>, subjects: seq<string>, n: nat)
    requires n <= |subjects|
    ensures SubjectsPlan(directory, rows, subjects, n) == Flatten(SubjectBlocks(directory, rows, subjects, n))
  {
    if n > 0 {
      SubjectsPlanFlat(directory, rows, subjects, n - 1);
      var blocks := SubjectBlocks(directory, rows, subjects, n);
      assert blocks[..n - 1] == SubjectBlocks(directory, rows, subjects, n - 1);
      assert blocks[..n] == blocks;
      FlattenSnoc(blocks, n);
    }
  }

  /** An orderly block of one subject stays orderly after actions that filed nothing under that subject. */
  lemma Rebase(head: seq<Action>, block: seq<Action>, sub: string)
    requires OrderlyAfter([], block) && Under(block, sub)
    requires forall ses, b :: Filed(head, sub, ses, b) == []
    ensures OrderlyAfter(head, block)
  {
    forall j | 0 <= j < |block|
      ensures Fresh(head + block[..j], block[j])
    {
      assert [] + block[..j] == block[..j];
      assert Fresh(block[..j], block[j]);
      forall ses, b
        ensures Filed(head + block[..j], sub, ses, b) == Filed(block[..j], sub, ses, b)
      {
        FiledAppend(head, block[..j], sub, ses, b);
      }
    }
  }

  lemma {:induction false} FlatOrderly(blocks: seq<seq<Action>>, subjects: seq<string>, n: nat)
    requires n <= |blocks| == |subjects| && NoDup(subjects)
    requires forall i | 0 <= i < |blocks| :: OrderlyAfter([], blocks[i]) && Under(blocks[i], "sub-" + subjects[i])
    ensures OrderlyAfter([], Flatten(blocks[..n]))
    ensures forall j, ses, b | n <= j < |subjects| :: Filed(Flatten(blocks[..n]), "sub-" + subjects[j], ses, b) == []
  {
    if n > 0 {
      FlatOrderly(blocks, subjects, n - 1);
      var init := Flatten(blocks[..n - 1]);
      FlattenSnoc(blocks, n);
      NextUntouched(init, subjects, n - 1, "sub-" + subjects[n - 1]);
      Rebase(init, blocks[n - 1], "sub-" + subjects[n - 1]);
      SubjectsStep(init, blocks[n - 1], subjects, n);
    }
  }

  lemma {:induction false} FlatOpened(blocks: seq<seq<Action>>, rows: seq<ParsedSeries>, subjects: seq<string>, n: nat)
    requires n <= |blocks| == |subjects|
    requires forall i | 0 <= i < |blocks| :: Under(blocks[i], "sub-" + subjects[i])
    requires forall i, r | 0 <= i < |blocks| && r in rows && r.sub == subjects[i] :: Opened(blocks[i], "sub-" + r.sub, "ses-" + r.ses)
    ensures forall r | r in rows && r.sub in subjects[..n] :: Opened(Flatten(blocks[..n]), "sub-" + r.sub, "ses-" + r.ses)
  {
    if n > 0 {
      FlatOpened(blocks, rows, subjects, n - 1);
      FlattenSnoc(blocks, n);
      SubjectsOpenedStep(Flatten(blocks[..n - 1]), blocks[n - 1], rows, subjects, n);
    }
  }

  lemma SubjectBlocksOrderly(directory: string, rows: seq<ParsedSeries>, subjects: seq<string>)
    ensures var blocks := SubjectBlocks(directory, rows, subjects, |subjects|);
      forall i | 0 <= i < |blocks| :: OrderlyAfter([], blocks[i]) && Under(blocks[i], "sub-" + subjects[i])
  {
    forall i | 0 <= i < |subjects|
      ensures OrderlyAfter([], SubjectPlan(directory, rows, subjects[i]))
      ensures Under(SubjectPlan(directory, rows, subjects[i]), "sub-" + subjects[i])
    {
      SubjectOrderly([], directory, rows, subjects[i]);
      SubjectPlanUnder(directory, rows, subjects[i]);
    }
  }

  lemma SubjectBlocksOpened(directory: string, rows: seq<ParsedSeries>, subjects: seq<string>)
    ensures var blocks := SubjectBlocks(directory, rows, subjects, |subjects|);
      forall i, r | 0 <= i < |blocks| && r in rows && r.sub == subjects[i] :: Opened(blocks[i], "sub-" + r.sub, "ses-" + r.ses)
  {
    forall i | 0 <= i < |subjects|
      ensures forall r | r in rows && r.sub == subjects[i] :: Opened(SubjectPlan(directory, rows, subjects[i]), "sub-" + r.sub, "ses-" + r.ses)
    {
      SubjectOpened(directory, rows, subjects[i]);
    }
  }

  /** The whole run is orderly. */
  lemma PlanOrderly(rows: seq<ParsedSeries>, directory: string)
    ensures OrderlyAfter([], Plan(rows, directory))
  {
    var subjects := Unique(ColumnOf(rows, SubCol));
    var blocks := SubjectBlocks(directory, rows, subjects, |subjects|);
    SubjectsPlanFlat(directory, rows, subjects, |subjects|);
    assert blocks[..|blocks|] == blocks;
    SubjectBlocksOrderly(directory, rows, subjects);
    FlatOrderly(blocks, subjects, |subjects|);
  }

  /** Every row's subject is one of the subjects the run visits. */
  lemma SubjectsListed(rows: seq<ParsedSeries>)
    ensures var subjects := Unique(ColumnOf(rows, SubCol));
      forall r | r in rows :: r.sub in subjects[..|subjects|]
  {
    var subjects := Unique(ColumnOf(rows, SubCol));
    assert subjects[..|subjects|] == subjects;
    forall r | r in rows
      ensures r.sub in subjects
    {
      var i :| 0 <= i < |rows| && rows[i] == r;
      assert ColumnOf(rows, SubCol)[i] == r.sub;
    }
  }

  /** The whole run opens the session of every row. */
  lemma PlanOpened(rows: seq<ParsedSeries>, directory: string)
    ensures forall r | r in rows :: Opened(Plan(rows, directory), "sub-" + r.sub, "ses-" + r.ses)
  {
    var subjects := Unique(ColumnOf(rows, SubCol));
    var blocks := SubjectBlocks(directory, rows, subjects, |subjects|);
    SubjectsPlanFlat(directory, rows, subjects, |subjects|);
    assert blocks[..|blocks|] == blocks;
    SubjectBlocksOrderly(directory, rows, subjects);
    SubjectBlocksOpened(directory, rows, subjects);
    FlatOpened(blocks, rows, subjects, |subjects|);
    SubjectsListed(rows);
  }

  // ---------------------------------------------------------------------------
  // The result

  lemma Resolved(files: set<string>, plan: seq<Action>, rows: seq<ParsedSeries>)
    requires OrderlyAfter([], plan)
    requires forall r | r in rows :: Opened(plan, "sub-" + r.sub, "ses-" + r.ses)
    ensures var fin := Apply(EMPTY_LAYOUT, files, plan).fin;
      && (forall r | r in rows :: Present(fin, "sub-" + r.sub, "ses-" + r.ses))
      && (forall sub, ses, b | Present(fin, sub, ses) :: Bucketed(fin[sub][ses], b) == Filed(plan, sub, ses, b))
  {
    ApplyMatches(EMPTY_LAYOUT, files, plan);
  }

  /**
   `fin` after ftq_map: the entry of every parsed row's session exists (also
   for series types without a branch), and each list of an existing entry is
   exactly the concatenation, in processing order, of the name lists of the
   series checked into that list of that session.
   */
  lemma ResolveTree(rows: seq<ParsedSeries>, disk: Disk)
    ensures var fin, plan := Resolve(rows, disk).fin, Plan(rows, disk.directory);
      && (forall r | r in rows :: Present(fin, "sub-" + r.sub, "ses-" + r.ses))
      && (forall sub, ses, b | Present(fin, sub, ses) :: Bucketed(fin[sub][ses], b) == Filed(plan, sub, ses, b))
  {
    PlanOrderly(rows, disk.directory);
    PlanOpened(rows, disk.directory);
    Resolved(disk.files, Plan(rows, disk.directory), rows);
  }

  // ---------------------------------------------------------------------------
  // Sessions with no handled series

  lemma {:induction false} FlatFiledNone(blocks: seq<seq<Action>>, sub: string, ses: string, b: Bucket, n: nat)
    requires n <= |blocks|
    requires forall i | 0 <= i < |blocks| :: Filed(blocks[i], sub, ses, b) == []
    ensures Filed(Flatten(blocks[..n]), sub, ses, b) == []
  {
    if n > 0 {
      FlatFiledNone(blocks, sub, ses, b, n - 1);
      FlattenSnoc(blocks, n);
      FiledAppend(Flatten(blocks[..n - 1]), blocks[n - 1], sub, ses, b);
    }
  }

  lemma {:induction false} UnhandledGroups(directory: string, rows: seq<ParsedSeries>, s: string, ss: string, types: seq<string>, n: nat)
    requires n <= |types|
    requires forall t | t in types :: KindOf(t).None?
    ensures GroupsPlan(directory, rows, s, ss, types, n) == []
  {
    if n > 0 {
      UnhandledGroups(directory, rows, s, ss, types, n - 1);
    }
  }

  /** A session none of whose series types has a branch: only its opening. */
  lemma UnhandledSession(directory: string, rows: seq<ParsedSeries>, s: string, ss: string)
    requires forall r | r in rows && r.ses == ss :: KindOf(r.series).None?
    ensures SessionPlan(directory, rows, s, ss) == [OpenSession("sub-" + s, "ses-" + ss)]
  {
    var sesRows := Select(rows, SesCol, ss);
    var cols := ColumnOf(sesRows, SeriesCol);
    var types := Unique(cols);
    SelectMembers(rows, SesCol, ss);
    forall t | t in types
      ensures KindOf(t).None?
    {
      var i :| 0 <= i < |cols| && cols[i] == t;
      assert sesRows[i] in sesRows;
    }
    UnhandledGroups(directory, sesRows, s, ss, types, |types|);
  }

  lemma FiledOne(a: Action, sub: string, ses: string, b: Bucket)
    requires !a.Check?
    ensures Filed([a], sub, ses, b) == []
  {
    FiledSnoc([], a, sub, ses, b);
    assert [] + [a] == [a];
  }

  lemma SubjectFiledNone(directory: string, rows: seq<ParsedSeries>, s: string, ss: string, b: Bucket)
    requires forall r | r in rows && r.sub == s && r.ses == ss :: KindOf(r.series).None?
    ensures Filed(SubjectPlan(directory, rows, s), "sub-" + s, "ses-" + ss, b) == []
  {
    var subRows := Select(rows, SubCol, s);
    var sessions := Unique(ColumnOf(subRows, SesCol));
    var blocks := SessionBlocks(directory, subRows, s, sessions, |sessions|);
    SessionsShape(directory, subRows, s, sessions);
    SelectMembers(rows, SubCol, s);
    forall i | 0 <= i < |blocks|
      ensures Filed(blocks[i], "sub-" + s, "ses-" + ss, b) == []
    {
      if sessions[i] == ss {
        UnhandledSession(directory, subRows, s, ss);
        FiledOne(OpenSession("sub-" + s, "ses-" + ss), "sub-" + s, "ses-" + ss, b);
      } else {
        PrefixDistinct("ses-", ss, sessions[i]);
        BlockElsewhere(blocks[i], "sub-" + s, "ses-" + sessions[i], "ses-" + ss, b);
      }
    }
    FlatFiledNone(blocks, "sub-" + s, "ses-" + ss, b, |blocks|);
    FiledOne(OpenSubject("sub-" + s), "sub-" + s, "ses-" + ss, b);
    FiledAppend([OpenSubject("sub-" + s)], SessionsPlan(directory, subRows, s, sessions, |sessions|), "sub-" + s, "ses-" + ss, b);
  }

  lemma PlanFiledNone(rows: seq<ParsedSeries>, directory: string, s: string, ss: string, b: Bucket)
    requires forall r | r in rows && r.sub == s && r.ses == ss :: KindOf(r.series).None?
    ensures Filed(Plan(rows, directory), "sub-" + s, "ses-" + ss, b) == []
  {
    var subjects := Unique(ColumnOf(rows, SubCol));
    var blocks := SubjectBlocks(directory, rows, subjects, |subjects|);
    SubjectsPlanFlat(directory, rows, subjects, |subjects|);
    assert blocks[..|blocks|] == blocks;
    forall i | 0 <= i < |blocks|
      ensures Filed(blocks[i], "sub-" + s, "ses-" + ss, b) == []
    {
      if subjects[i] == s {
        SubjectFiledNone(directory, rows, s, ss, b);
      } else {
        SubjectPlanUnder(directory, rows, subjects[i]);
        PrefixDistinct("sub-", s, subjects[i]);
        UnderElsewhere(blocks[i], "sub-" + subjects[i], "sub-" + s, "ses-" + ss, b);
      }
    }
    FlatFiledNone(blocks, "sub-" + s, "ses-" + ss, b, |blocks|);
  }

  /**
   A session all of whose series types are outside the nine with a branch
   still gets its `fin` entry, and the entry keeps its four empty lists.
   */
  lemma UnhandledSessionEmpty(rows: seq<ParsedSeries>, disk: Disk, r: ParsedSeries)
    requires r in rows
    requires forall x | x in rows && x.sub == r.sub && x.ses == r.ses :: KindOf(x.series).None?
    ensures var fin := Resolve(rows, disk).fin;
      Present(fin, "sub-" + r.sub, "ses-" + r.ses) && fin["sub-" + r.sub]["ses-" + r.ses] == EMPTY_BUCKETS
  {
    ResolveTree(rows, disk);
    forall b
      ensures Filed(Plan(rows, disk.directory), "sub-" + r.sub, "ses-" + r.ses, b) == []
    {
      PlanFiledNone(rows, disk.directory, r.sub, r.ses, b);
    }
    EmptyEntry(Resolve(rows, disk).fin, Plan(rows, disk.directory), "sub-" + r.sub, "ses-" + r.ses);
  }

  lemma EmptyEntry(fin: Tree, plan: seq<Action>, sub: string, ses: string)
    requires Present(fin, sub, ses)
    requires forall b :: Bucketed(fin[sub][ses], b) == Filed(plan, sub, ses, b)
    requires forall b :: Filed(plan, sub, ses, b) == []
    ensures fin[sub][ses] == EMPTY_BUCKETS
  {
    var bs := fin[sub][ses];
    assert Bucketed(bs, Anat) == [] && Bucketed(bs, Dwi) == [] && Bucketed(bs, Fmap) == [] && Bucketed(bs, Func) == [];
  }
}
