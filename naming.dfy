/**
 The naming table of ftq_map.py: the nine ABCD series types it handles, the
 modality bucket each goes to, and the BIDS-style file names it expects the
 conversion to produce for one series.
 */
module Naming {
  import opened Wrappers
  import opened Text
  import opened Ordering

  /** The series types ftq_map.py has a branch for (ftq_map.py:81, 113, 142, 171, 200, 233, 262, 291, 320). */
  datatype SeriesKind = T1 | T1Norm | T2 | T2Norm | Dti | Mid | NBack | Sst | RsFmri

  /** The four sub-directories each `fin[sub][ses]` entry starts with. */
  datatype Bucket = Anat | Dwi | Fmap | Func

  /** The series-type token as it appears in an ftq_series_id. */
  function TypeName(k: SeriesKind): string
  {
    match k
    case T1 => "ABCD-T1"
    case T1Norm => "ABCD-T1-NORM"
    case T2 => "ABCD-T2"
    case T2Norm => "ABCD-T2-NORM"
    case Dti => "ABCD-DTI"
    case Mid => "ABCD-MID-fMRI"
    case NBack => "ABCD-nBack-fMRI"
    case Sst => "ABCD-SST-fMRI"
    case RsFmri => "ABCD-rsfMRI"
  }

  /** The branches in the order ftq_map.py tests them. */
  const KINDS: seq<SeriesKind> := [T1, T1Norm, T2, T2Norm, Dti, Mid, NBack, Sst, RsFmri]

  /** The first of `kinds` whose type name is `series`. */
  function KindIn(series: string, kinds: seq<SeriesKind>): (r: Option<SeriesKind>)
    ensures r.Some? ==> TypeName(r.value) == series && r.value in kinds
    ensures r.None? ==> forall k | k in kinds :: TypeName(k) != series
  {
    if kinds == [] then None
    else if TypeName(kinds[0]) == series then Some(kinds[0])
    else KindIn(series, kinds[1..])
  }

  /** The `if series == ... elif ...` dispatch: which branch, if any, a series-type token takes. */
  function KindOf(series: string): (r: Option<SeriesKind>)
    ensures r.Some? ==> TypeName(r.value) == series
    ensures r.None? ==> forall k :: TypeName(k) != series
  {
    AllKindsListed();
    KindIn(series, KINDS)
  }

  lemma AllKindsListed()
    ensures forall k :: k in KINDS
  {
    forall k
      ensures k in KINDS
    {
      match k
      case T1 => assert KINDS[0] == k;
      case T1Norm => assert KINDS[1] == k;
      case T2 => assert KINDS[2] == k;
      case T2Norm => assert KINDS[3] == k;
      case Dti => assert KINDS[4] == k;
      case Mid => assert KINDS[5] == k;
      case NBack => assert KINDS[6] == k;
      case Sst => assert KINDS[7] == k;
      case RsFmri => assert KINDS[8] == k;
    }
  }

  /** Distinct kinds have distinct type names. */
  lemma TypeNameInjective(a: SeriesKind, b: SeriesKind)
    ensures TypeName(a) == TypeName(b) ==> a == b
  {
  }

  /** The dispatch and the type names are inverse: each handled type is recognised as its own kind. */
  lemma KindOfTypeName(k: SeriesKind)
    ensures KindOf(TypeName(k)) == Some(k)
  {
    var r := KindOf(TypeName(k));
    TypeNameInjective(r.value, k);
  }

  function BucketOf(k: SeriesKind): Bucket
  {
    match k
    case T1 | T1Norm | T2 | T2Norm => Anat
    case Dti => Dwi
    case Mid | NBack | Sst | RsFmri => Func
  }

  function BucketName(b: Bucket): string
  {
    match b
    case Anat => "anat"
    case Dwi => "dwi"
    case Fmap => "fmap"
    case Func => "func"
  }

  /** Bucket routing: the anatomical types go to anat, DTI to dwi, the four fMRI types to func, and no type to fmap. */
  lemma BucketRouting(k: SeriesKind)
    ensures BucketOf(k) == Anat <==> k in {T1, T1Norm, T2, T2Norm}
    ensures BucketOf(k) == Dwi <==> k == Dti
    ensures BucketOf(k) == Func <==> k in {Mid, NBack, Sst, RsFmri}
    ensures BucketOf(k) != Fmap
  {
  }

  /** The entities that come before the run entity in a file name. */
  function Entities(k: SeriesKind): seq<string>
  {
    match k
    case T1Norm | T2Norm => ["rec-normalized"]
    case Mid => ["task-MID"]
    case NBack => ["task-nback"]
    case Sst => ["task-SST"]
    case RsFmri => ["task-rest"]
    case T1 | T2 | Dti => []
  }

  /** The BIDS suffix, the last underscore-separated part of a file name. */
  function Suffix(k: SeriesKind): string
  {
    match k
    case T1 | T1Norm => "T1w"
    case T2 | T2Norm => "T2w"
    case Dti => "dwi"
    case Mid | NBack | Sst | RsFmri => "bold"
  }

  /** The extensions, in the order the file names are listed. */
  function Extensions(k: SeriesKind): seq<string>
  {
    if k == Dti then [".nii.gz", ".json", ".bval", ".bvec"] else [".nii.gz", ".json"]
  }

  /** The run entity: absent for a group of one series, `run-XX` otherwise. */
  function RunEntity(run: Option<string>): seq<string>
  {
    if run.None? then [] else ["run-" + run.value]
  }

  /** The underscore-separated parts of a file name before its extension. */
  function Pieces(k: SeriesKind, s: string, ss: string, run: Option<string>): seq<string>
  {
    ["sub-" + s, "ses-" + ss] + Entities(k) + RunEntity(run) + [Suffix(k)]
  }

  function Stem(k: SeriesKind, s: string, ss: string, run: Option<string>): string
  {
    Join(Pieces(k, s, ss, run), '_')
  }

  /** The file names expected for one series of kind k, subject s and session ss (the `mapping[ftq]` list). */
  function ExpectedFiles(k: SeriesKind, s: string, ss: string, run: Option<string>): seq<string>
  {
    var stem := Stem(k, s, ss, run);
    var exts := Extensions(k);
    seq(|exts|, i requires 0 <= i < |exts| => stem + exts[i])
  }

  /**
   The file names exactly as ftq_map.py spells them out, branch by branch, for
   `sub = f'sub-{s}'` and `ses = f'ses-{ss}'`: the reference against which the
   table above is checked.
   */
  function SourceNames(k: SeriesKind, sub: string, ses: string, run: Option<string>): seq<string>
  {
    var p := sub + "_" + ses + "_";
    var r := if run.Some? then "run-" + run.value + "_" else "";
    match k
    case T1 => [p + r + "T1w.nii.gz", p + r + "T1w.json"]
    case T1Norm => [p + "rec-normalized_" + r + "T1w.nii.gz", p + "rec-normalized_" + r + "T1w.json"]
    case T2 => [p + r + "T2w.nii.gz", p + r + "T2w.json"]
    case T2Norm => [p + "rec-normalized_" + r + "T2w.nii.gz", p + "rec-normalized_" + r + "T2w.json"]
    case Dti => [p + r + "dwi.nii.gz", p + r + "dwi.json", p + r + "dwi.bval", p + r + "dwi.bvec"]
    case Mid => [p + "task-MID_" + r + "bold.nii.gz", p + "task-MID_" + r + "bold.json"]
    case NBack => [p + "task-nback_" + r + "bold.nii.gz", p + "task-nback_" + r + "bold.json"]
    case Sst => [p + "task-SST_" + r + "bold.nii.gz", p + "task-SST_" + r + "bold.json"]
    case RsFmri => [p + "task-rest_" + r + "bold.nii.gz", p + "task-rest_" + r + "bold.json"]
  }

  /** Joining pieces with an underscore: the first piece, an underscore, then the join of the rest. */
  lemma JoinCons(first: string, rest: seq<string>)
    requires |rest| >= 1
    ensures Join([first] + rest, '_') == first + "_" + Join(rest, '_')
  {
    var p := [first] + rest;
    assert p[0] == first && p[1..] == rest && |p| >= 2;
  }

  /** A join of pieces with at least one piece after some prefix pieces begins with each prefix piece and an underscore. */
  lemma {:induction false} JoinPrefix(front: seq<string>, rest: seq<string>)
    requires |rest| >= 1
    ensures Join(front + rest, '_') == Concat(front) + Join(rest, '_')
  {
    if front == [] {
      assert front + rest == rest;
    } else {
      var f0, tail := front[0], front[1..];
      assert front + rest == [f0] + (tail + rest);
      JoinCons(f0, tail + rest);
      JoinPrefix(tail, rest);
      calc {
        Join(front + rest, '_');
        f0 + "_" + Join(tail + rest, '_');
        f0 + "_" + (Concat(tail) + Join(rest, '_'));
        (f0 + "_" + Concat(tail)) + Join(rest, '_');
        Concat(front) + Join(rest, '_');
      }
    }
  }

  /** Each piece followed by an underscore. */
  function Concat(front: seq<string>): string
  {
    if front == [] then "" else front[0] + "_" + Concat(front[1..])
  }

  /** What every file name of subject s and session ss begins with. */
  function Prefix(s: string, ss: string): string
  {
    ("sub-" + s) + "_" + ("ses-" + ss) + "_"
  }

  /** The stem, spelled as prefix, entities, run entity and suffix. */
  lemma {:induction false} StemSpelled(k: SeriesKind, s: string, ss: string, run: Option<string>)
    ensures Stem(k, s, ss, run) == Prefix(s, ss) + Concat(Entities(k)) + Concat(RunEntity(run)) + Suffix(k)
  {
    var a, b := "sub-" + s, "ses-" + ss;
    var e, r, x := Entities(k), RunEntity(run), Suffix(k);
    var ab := [a, b];
    var front := ab + e + r;
    assert Pieces(k, s, ss, run) == front + [x];
    JoinPrefix(front, [x]);
    assert Join([x], '_') == x;
    ConcatAppend(ab + e, r);
    ConcatAppend(ab, e);
    assert Concat(ab) == Prefix(s, ss) by {
      assert ab[1..] == [b];
      assert [b][1..] == [];
      assert Concat([b]) == b + "_";
    }
    calc {
      Stem(k, s, ss, run);
      Concat(front) + x;
      (Concat(ab + e) + Concat(r)) + x;
      ((Concat(ab) + Concat(e)) + Concat(r)) + x;
    }
  }

  lemma {:induction false} ConcatAppend(a: seq<string>, b: seq<string>)
    ensures Concat(a + b) == Concat(a) + Concat(b)
  {
    if a == [] {
      assert a + b == b;
    } else {
      assert (a + b)[0] == a[0] && (a + b)[1..] == a[1..] + b;
      ConcatAppend(a[1..], b);
      calc {
        Concat(a + b);
        a[0] + "_" + Concat(a[1..] + b);
        a[0] + "_" + (Concat(a[1..]) + Concat(b));
        (a[0] + "_" + Concat(a[1..])) + Concat(b);
      }
    }
  }

  /**
   The table reproduces the source's literal file names: for every handled
   type, one run or several, the names and their order are those of the
   copy-pasted branches of ftq_map.py.
   */
  lemma TableMatchesSource(k: SeriesKind, s: string, ss: string, run: Option<string>)
    ensures ExpectedFiles(k, s, ss, run) == SourceNames(k, "sub-" + s, "ses-" + ss, run)
  {
    var names, source := ExpectedFiles(k, s, ss, run), SourceNames(k, "sub-" + s, "ses-" + ss, run);
    SourceSpelled(k, s, ss, run);
    forall i | 0 <= i < |names|
      ensures names[i] == source[i]
    {
      ExpectedSpelled(k, s, ss, run, i);
    }
  }

  /** The source's literal names, spelled as prefix, entities, run entity, suffix and extension. */
  lemma SourceSpelled(k: SeriesKind, s: string, ss: string, run: Option<string>)
    ensures var source := SourceNames(k, "sub-" + s, "ses-" + ss, run);
      && |source| == |Extensions(k)|
      && forall i | 0 <= i < |source| ::
           source[i] == Prefix(s, ss) + EntityText(k) + RunText(run) + (Suffix(k) + Extensions(k)[i])
  {
    var p := Prefix(s, ss);
    match k
    case T1 =>
      assert p + EntityText(k) == p;
      assert "T1w" + ".nii.gz" == "T1w.nii.gz" && "T1w" + ".json" == "T1w.json";
    case T1Norm =>
      assert "T1w" + ".nii.gz" == "T1w.nii.gz" && "T1w" + ".json" == "T1w.json";
    case T2 =>
      assert p + EntityText(k) == p;
      assert "T2w" + ".nii.gz" == "T2w.nii.gz" && "T2w" + ".json" == "T2w.json";
    case T2Norm =>
      assert "T2w" + ".nii.gz" == "T2w.nii.gz" && "T2w" + ".json" == "T2w.json";
    case Dti =>
      assert p + EntityText(k) == p;
      assert "dwi" + ".nii.gz" == "dwi.nii.gz" && "dwi" + ".json" == "dwi.json";
      assert "dwi" + ".bval" == "dwi.bval" && "dwi" + ".bvec" == "dwi.bvec";
    case Mid =>
      assert "bold" + ".nii.gz" == "bold.nii.gz" && "bold" + ".json" == "bold.json";
    case NBack =>
      assert "bold" + ".nii.gz" == "bold.nii.gz" && "bold" + ".json" == "bold.json";
    case Sst =>
      assert "bold" + ".nii.gz" == "bold.nii.gz" && "bold" + ".json" == "bold.json";
    case RsFmri =>
      assert "bold" + ".nii.gz" == "bold.nii.gz" && "bold" + ".json" == "bold.json";
  }

  /** The run entity written as in the source, followed by its underscore. */
  function RunText(run: Option<string>): string
  {
    if run.Some? then "run-" + run.value + "_" else ""
  }

  /** The i-th expected name, spelled as prefix, entities, run entity, suffix and extension. */
  lemma ExpectedSpelled(k: SeriesKind, s: string, ss: string, run: Option<string>, i: nat)
    requires i < |Extensions(k)|
    ensures ExpectedFiles(k, s, ss, run)[i]
      == Prefix(s, ss) + EntityText(k) + RunText(run) + (Suffix(k) + Extensions(k)[i])
  {
    StemSpelled(k, s, ss, run);
    ConcatRunEntity(run);
    ConcatEntities(k);
  }

  lemma ConcatRunEntity(run: Option<string>)
    ensures Concat(RunEntity(run)) == RunText(run)
  {
    if run.Some? {
      assert RunEntity(run)[1..] == [];
    }
  }

  lemma ConcatEntities(k: SeriesKind)
    ensures Concat(Entities(k)) == EntityText(k)
  {
    if Entities(k) != [] {
      assert Entities(k)[1..] == [];
    }
  }

  /** The entities of a file name written as in the source, each followed by its underscore. */
  function EntityText(k: SeriesKind): string
  {
    match k
    case T1Norm | T2Norm => "rec-normalized_"
    case Mid => "task-MID_"
    case NBack => "task-nback_"
    case Sst => "task-SST_"
    case RsFmri => "task-rest_"
    case T1 | T2 | Dti => ""
  }

  /** Gluing an extension onto a joined name extends its last piece. */
  lemma JoinExtended(front: seq<string>, x: string, ext: string)
    ensures Join(front + [x], '_') + ext == Join(front + [x + ext], '_')
  {
    JoinPrefix(front, [x]);
    JoinPrefix(front, [x + ext]);
  }

  /**
   A list of expected names holds `.nii.gz` then `.json` on one common stem,
   followed by `.bval` and `.bvec` for DTI alone.
   */
  lemma FilesShape(k: SeriesKind, s: string, ss: string, run: Option<string>)
    ensures var names, stem := ExpectedFiles(k, s, ss, run), Stem(k, s, ss, run);
      && |names| == (if k == Dti then 4 else 2)
      && names[0] == stem + ".nii.gz" && names[1] == stem + ".json"
      && (k == Dti ==> names[2] == stem + ".bval" && names[3] == stem + ".bvec")
  {
  }

  /** Every expected name starts with `sub-{s}_ses-{ss}_`. */
  lemma FilesPrefix(k: SeriesKind, s: string, ss: string, run: Option<string>)
    ensures forall f | f in ExpectedFiles(k, s, ss, run) :: Prefix(s, ss) <= f
  {
    var names, stem := ExpectedFiles(k, s, ss, run), Stem(k, s, ss, run);
    var p := Prefix(s, ss);
    StemPrefix(k, s, ss, run);
    forall i | 0 <= i < |names|
      ensures p <= names[i]
    {
      PrefixExtended(p, stem, Extensions(k)[i]);
    }
  }

  lemma StemPrefix(k: SeriesKind, s: string, ss: string, run: Option<string>)
    ensures Prefix(s, ss) <= Stem(k, s, ss, run)
  {
    StemSpelled(k, s, ss, run);
    var p, e, r := Prefix(s, ss), Concat(Entities(k)), Concat(RunEntity(run));
    PrefixExtended(p, p, e);
    PrefixExtended(p, p + e, r);
    PrefixExtended(p, p + e + r, Suffix(k));
  }

  lemma PrefixExtended(p: string, x: string, e: string)
    requires p <= x
    ensures p <= x + e
  {
    assert (x + e)[..|p|] == x[..|p|];
  }

  /** One series never lists the same file twice. */
  lemma FilesDistinct(k: SeriesKind, s: string, ss: string, run: Option<string>)
    ensures NoDup(ExpectedFiles(k, s, ss, run))
  {
    var names, stem, exts := ExpectedFiles(k, s, ss, run), Stem(k, s, ss, run), Extensions(k);
    forall i, j | 0 <= i < j < |names|
      ensures names[i] != names[j]
    {
      assert names[i][|stem|..] == exts[i];
      assert names[j][|stem|..] == exts[j];
      assert exts[i] != exts[j] by {
        assert exts[i][1] != exts[j][1] || exts[i][2] != exts[j][2] || exts[i][4] != exts[j][4];
      }
    }
  }

  /** The inputs a name is built from hold no underscore, as holds for the parts of a parsed identifier. */
  predicate Underscoreless(s: string, ss: string, run: Option<string>)
  {
    '_' !in s && '_' !in ss && (run.Some? ==> '_' !in run.value)
  }

  /** Splitting an expected name on `_` gives back its pieces, the last one carrying the extension. */
  lemma NamePieces(k: SeriesKind, s: string, ss: string, run: Option<string>, i: nat)
    requires i < |Extensions(k)|
    requires Underscoreless(s, ss, run)
    ensures var ps := Pieces(k, s, ss, run);
      Split(ExpectedFiles(k, s, ss, run)[i], '_') == ps[..|ps| - 1] + [Suffix(k) + Extensions(k)[i]]
  {
    var ps := Pieces(k, s, ss, run);
    var front := ps[..|ps| - 1];
    var last := Suffix(k) + Extensions(k)[i];
    assert ps == front + [Suffix(k)];
    JoinExtended(front, Suffix(k), Extensions(k)[i]);
    assert front == ["sub-" + s, "ses-" + ss] + Entities(k) + RunEntity(run);
    assert '_' !in last by {
      assert '_' !in Suffix(k);
      assert '_' !in Extensions(k)[i];
    }
    FrontUnderscoreless(k, s, ss, run);
    forall q | q in front + [last]
      ensures '_' !in q
    {
      assert q in front || q == last;
    }
    SplitJoin(front + [last], '_');
  }

  /** No piece before the suffix holds an underscore. */
  lemma FrontUnderscoreless(k: SeriesKind, s: string, ss: string, run: Option<string>)
    requires Underscoreless(s, ss, run)
    ensures forall q | q in ["sub-" + s, "ses-" + ss] + Entities(k) + RunEntity(run) :: '_' !in q
  {
    assert '_' !in "sub-" + s && '_' !in "ses-" + ss;
    assert forall q | q in Entities(k) :: '_' !in q;
    assert forall q | q in RunEntity(run) :: '_' !in q;
  }

  /**
   The single-run / multi-run rule: a name carries an underscore-separated part
   beginning with `run-` exactly when the series was given a run label, and
   then that part is `run-` followed by the label.
   */
  lemma RunPieceIffLabelled(k: SeriesKind, s: string, ss: string, run: Option<string>, i: nat)
    requires i < |Extensions(k)|
    requires Underscoreless(s, ss, run)
    ensures var parts := Split(ExpectedFiles(k, s, ss, run)[i], '_');
      && ((exists t | t in parts :: "run-" <= t) <==> run.Some?)
      && (run.Some? ==> "run-" + run.value in parts)
  {
    NamePieces(k, s, ss, run, i);
    var ps := Pieces(k, s, ss, run);
    var front := ["sub-" + s, "ses-" + ss] + Entities(k);
    var back := [Suffix(k) + Extensions(k)[i]];
    assert ps == (front + RunEntity(run)) + [Suffix(k)];
    assert ps[..|ps| - 1] == front + RunEntity(run);
    forall t | t in front + back
      ensures !("run-" <= t)
    {
      assert t[0] != 'r' || t[1] != 'u';
    }
    RunPieceAmong(front, back, run);
  }

  /** Among pieces none of which starts with `run-`, the run entity is the only one that does. */
  lemma RunPieceAmong(front: seq<string>, back: seq<string>, run: Option<string>)
    requires forall t | t in front + back :: !("run-" <= t)
    ensures var parts := front + RunEntity(run) + back;
      && ((exists t | t in parts :: "run-" <= t) <==> run.Some?)
      && (run.Some? ==> "run-" + run.value in parts)
  {
    var parts := front + RunEntity(run) + back;
    forall t | t in parts
      ensures t in front + back || t in RunEntity(run)
    {
    }
    if run.Some? {
      var t := parts[|front|];
      assert t == "run-" + run.value && t in parts;
      assert "run-" <= t;
    }
  }

  /** Two different run labels of one series type, subject and session never name a common file. */
  lemma DistinctRunsDistinctFiles(k: SeriesKind, s: string, ss: string, a: string, b: string)
    requires Underscoreless(s, ss, Some(a)) && Underscoreless(s, ss, Some(b))
    requires a != b
    ensures forall f | f in ExpectedFiles(k, s, ss, Some(a)) :: f !in ExpectedFiles(k, s, ss, Some(b))
  {
    var fa, fb := ExpectedFiles(k, s, ss, Some(a)), ExpectedFiles(k, s, ss, Some(b));
    var m := 2 + |Entities(k)|;
    forall i, j | 0 <= i < |fa| && 0 <= j < |fb|
      ensures fa[i] != fb[j]
    {
      NamePieces(k, s, ss, Some(a), i);
      NamePieces(k, s, ss, Some(b), j);
      assert Split(fa[i], '_')[m] == "run-" + a;
      assert Split(fb[j], '_')[m] == "run-" + b;
      assert ("run-" + a)[4..] == a && ("run-" + b)[4..] == b;
    }
  }

}
