/**
 The subsetting tool (src/subset_data.py): from the data-type keys asked for on
 the command line it derives a sorted list of series types, picks the
 identifiers of the ftq_map mapping whose series-type token names one of them,
 keeps those the QC file also lists, and writes a QC file holding the two
 header lines and one line per kept identifier.
 */
module SubsetData {
  import opened Wrappers
  import opened Text
  import opened Ordering

  /** The keys of the `DATATYPES` table. */
  datatype DataType =
    | Anat | Dwi | Fmap | Func
    | TaskMid | TaskNback | TaskRest | TaskSst
    | T1wAsAcquired | T2wAsAcquired | T1wNormalized | T2wNormalized

  /** The key as typed on the command line. */
  function KeyName(d: DataType): string
  {
    match d
    case Anat => "anat"
    case Dwi => "dwi"
    case Fmap => "fmap"
    case Func => "func"
    case TaskMid => "task-MID"
    case TaskNback => "task-nback"
    case TaskRest => "task-rest"
    case TaskSst => "task-SST"
    case T1wAsAcquired => "T1w-asacquired"
    case T2wAsAcquired => "T2w-asacquired"
    case T1wNormalized => "T1w-normalized"
    case T2wNormalized => "T2w-normalized"
  }

  /** `DATATYPES[d]`: the series types a key stands for. */
  function Members(d: DataType): seq<string>
  {
    match d
    case Anat => ["T1", "T1-NORM", "T2", "T2-NORM"]
    case Dwi => ["Diffusion-FM", "Diffusion-FM-AP", "Diffusion-FM-PA", "DTI"]
    case Fmap => ["Diffusion-FM", "Diffusion-FM-AP", "Diffusion-FM-PA", "fMRI-FM", "fMRI-FM-AP", "fMRI-FM-PA"]
    case Func => ["fMRI-FM", "fMRI-FM-AP", "fMRI-FM-PA", "MID-fMRI", "nBack-fMRI", "rsfMRI", "SST-fMRI"]
    case TaskMid => ["fMRI-FM", "fMRI-FM-AP", "fMRI-FM-PA", "MID-fMRI"]
    case TaskNback => ["fMRI-FM", "fMRI-FM-AP", "fMRI-FM-PA", "nBack-fMRI"]
    case TaskRest => ["fMRI-FM", "fMRI-FM-AP", "fMRI-FM-PA", "rsfMRI"]
    case TaskSst => ["fMRI-FM", "fMRI-FM-AP", "fMRI-FM-PA", "SST-fMRI"]
    case T1wAsAcquired => ["T1"]
    case T2wAsAcquired => ["T2"]
    case T1wNormalized => ["T1-NORM"]
    case T2wNormalized => ["T2-NORM"]
  }

  /** The table's keys in the order the table lists them. */
  const DATATYPES: seq<DataType> :=
    [Anat, Dwi, Fmap, Func, TaskMid, TaskNback, TaskRest, TaskSst,
     T1wAsAcquired, T2wAsAcquired, T1wNormalized, T2wNormalized]

  /** The `POSSIBLES` list: every series type the tool knows. */
  const POSSIBLES: seq<string> :=
    ["Diffusion-FM", "Diffusion-FM-AP", "Diffusion-FM-PA", "DTI", "fMRI-FM", "fMRI-FM-AP", "fMRI-FM-PA",
     "MID-fMRI", "nBack-fMRI", "rsfMRI", "SST-fMRI", "T1", "T1-NORM", "T2", "T2-NORM"]

  lemma AllKeysListed()
    ensures forall d :: d in DATATYPES
  {
    forall d
      ensures d in DATATYPES
    {
      match d
      case Anat => assert DATATYPES[0] == d;
      case Dwi => assert DATATYPES[1] == d;
      case Fmap => assert DATATYPES[2] == d;
      case Func => assert DATATYPES[3] == d;
      case TaskMid => assert DATATYPES[4] == d;
      case TaskNback => assert DATATYPES[5] == d;
      case TaskRest => assert DATATYPES[6] == d;
      case TaskSst => assert DATATYPES[7] == d;
      case T1wAsAcquired => assert DATATYPES[8] == d;
      case T2wAsAcquired => assert DATATYPES[9] == d;
      case T1wNormalized => assert DATATYPES[10] == d;
      case T2wNormalized => assert DATATYPES[11] == d;
    }
  }

  /** Distinct keys are spelled differently, so a spelling names at most one key. */
  lemma KeyNameInjective(a: DataType, b: DataType)
    ensures KeyName(a) == KeyName(b) ==> a == b
  {
  }

  /** Every series type of the table is one of `POSSIBLES`. */
  lemma MembersPossible(d: DataType)
    ensures forall m | m in Members(d) :: m in POSSIBLES
  {
    match d
    case Anat =>
    case Dwi =>
    case Fmap =>
    case Func =>
    case TaskMid =>
    case TaskNback =>
    case TaskRest =>
    case TaskSst =>
    case T1wAsAcquired =>
    case T2wAsAcquired =>
    case T1wNormalized =>
    case T2wNormalized =>
  }

  /** No series type of `POSSIBLES` has an underscore, so each fits in one `_`-separated token. */
  lemma PossiblesUnderscoreless()
    ensures forall m | m in POSSIBLES :: '_' !in m
  {
  }

  /** The first of `keys` spelled `t`. */
  function KeyIn(t: string, keys: seq<DataType>): (r: Option<DataType>)
    ensures r.Some? ==> KeyName(r.value) == t
    ensures r.None? ==> forall d | d in keys :: KeyName(d) != t
  {
    if keys == [] then None
    else if KeyName(keys[0]) == t then Some(keys[0])
    else KeyIn(t, keys[1..])
  }

  /** The key a command-line word names, if any. */
  function KeyOf(t: string): (r: Option<DataType>)
    ensures r.Some? ==> KeyName(r.value) == t
    ensures r.None? ==> forall d :: KeyName(d) != t
  {
    AllKeysListed();
    KeyIn(t, DATATYPES)
  }

  /**
   The `--types` option (`nargs='+'`, `choices=DATATYPES.keys()`): accepted
   exactly when there is at least one word and every word is a key of the
   table; the accepted keys are the words, in order.
   */
  function ParseTypes(args: seq<string>): (r: Option<seq<DataType>>)
    ensures r.Some? <==> |args| >= 1 && forall i | 0 <= i < |args| :: KeyOf(args[i]).Some?
    ensures r.Some? ==> |r.value| == |args| && forall i | 0 <= i < |args| :: KeyOf(args[i]) == Some(r.value[i])
  {
    if args == [] then None
    else
      var last := KeyOf(args[|args| - 1]);
      if last.None? then None
      else if |args| == 1 then Some([last.value])
      else
        var init := ParseTypes(args[..|args| - 1]);
        if init.None? then None
        else Some(init.value + [last.value])
  }

  /** The union of `DATATYPES[t]` over the requested keys. */
  function Expanded(types: seq<DataType>): set<string>
  {
    set t, d | t in types && d in Members(t) :: d
  }

  lemma ExpandedSnoc(types: seq<DataType>, i: nat)
    requires i < |types|
    ensures Expanded(types[..i + 1]) == Expanded(types[..i]) + set d | d in Members(types[i])
  {
    assert types[..i + 1] == types[..i] + [types[i]];
  }

  /**
   The expansion of the requested keys (lines 142-147): `datatypes` is the union
   of their series types and `subsets` holds each of them once, in ascending
   string order.
   */
  method ExpandTypes(types: seq<DataType>) returns (datatypes: set<string>, subsets: seq<string>)
    ensures datatypes == Expanded(types)
    ensures SortedBy(subsets, Self) && NoDup(subsets)
    ensures forall d :: d in subsets <==> d in datatypes
  {
    datatypes := {};
    for i := 0 to |types|
      invariant datatypes == Expanded(types[..i])
    {
      var members := Members(types[i]);
      for j := 0 to |members|
        invariant datatypes == Expanded(types[..i]) + set k | 0 <= k < j :: members[k]
      {
        datatypes := datatypes + {members[j]};
      }
      ExpandedSnoc(types, i);
    }
    assert types[..|types|] == types;
    var listed := ListOf(datatypes);
    subsets := SortBy(listed, Self);
    NoDupPermutation(listed, subsets);
    assert forall d :: d in subsets <==> d in multiset(listed);
  }

  /** The sorted list of series types is determined by the requested keys, whatever order `list(datatypes)` produced. */
  lemma SubsetsDetermined(types: seq<DataType>, a: seq<string>, b: seq<string>)
    requires SortedBy(a, Self) && NoDup(a) && forall d :: d in a <==> d in Expanded(types)
    requires SortedBy(b, Self) && NoDup(b) && forall d :: d in b <==> d in Expanded(types)
    ensures a == b
  {
    SortedDistinctUnique(a, b);
  }

  /** The column whose header names the QC series identifier. */
  const ID_COLUMN := "ftq_series_id"

  /** Index of the first of `cols[from..]` that contains `pat`, or of the last column when none does. */
  function FirstContaining(cols: seq<string>, pat: string, from: nat): (i: nat)
    requires from < |cols|
    ensures from <= i < |cols|
    ensures forall k | from <= k < i :: !Contains(cols[k], pat)
    ensures Contains(cols[i], pat) || i == |cols| - 1
    decreases |cols| - from
  {
    if Contains(cols[from], pat) || from == |cols| - 1 then from
    else FirstContaining(cols, pat, from + 1)
  }

  /**
   The index the column search leaves behind: the first tab-separated header
   field containing `ftq_series_id`; when no field does, the loop runs out and
   its variable keeps the last index.
   */
  function IdColumn(header: string): nat
  {
    FirstContaining(Split(header, '\t'), ID_COLUMN, 0)
  }

  /** The column search (lines 152-155). */
  method FindIdColumn(header: string) returns (index: nat)
    ensures index == IdColumn(header)
  {
    var columns := Split(header, '\t');
    index := 0;
    while index < |columns| - 1 && !Contains(columns[index], ID_COLUMN)
      invariant index < |columns|
      invariant forall k | 0 <= k < index :: !Contains(columns[k], ID_COLUMN)
    {
      index := index + 1;
    }
  }

  /**
   The identifier of a QC line: its `index`-th tab-separated field with the
   surrounding `"` removed; None when the line has too few fields, where
   Python raises IndexError.
   */
  function LineId(line: string, index: nat): (r: Option<string>)
    ensures r.Some? <==> index < |Split(line, '\t')|
  {
    var fields := Split(line, '\t');
    if index < |fields| then Some(Strip(fields[index], '"')) else None
  }

  /** The dictionary filled line by line from `body`; None when some line has too few fields. */
  function Keyed(body: seq<string>, index: nat): Option<map<string, string>>
  {
    if body == [] then Some(map[])
    else
      var last := body[|body| - 1];
      match Keyed(body[..|body| - 1], index)
      case None => None
      case Some(dict) =>
        match LineId(last, index)
        case None => None
        case Some(id) => Some(dict[id := last])
  }

  /** Line `k` is the last line of `body` carrying its identifier. */
  predicate LastWithId(body: seq<string>, index: nat, k: nat)
    requires k < |body|
  {
    LineId(body[k], index).Some? && forall l | k < l < |body| :: LineId(body[l], index) != LineId(body[k], index)
  }

  /** The dictionary exists exactly when every line has the id column. */
  lemma {:induction false} KeyedSome(body: seq<string>, index: nat)
    ensures Keyed(body, index).Some? <==> forall k | 0 <= k < |body| :: LineId(body[k], index).Some?
  {
    if body != [] {
      var n := |body| - 1;
      KeyedSome(body[..n], index);
      assert forall k | 0 <= k < n :: body[..n][k] == body[k];
    }
  }

  /** Its keys are the identifiers of the lines. */
  lemma {:induction false} KeyedKeys(body: seq<string>, index: nat)
    requires Keyed(body, index).Some?
    ensures forall id :: id in Keyed(body, index).value <==> exists k | 0 <= k < |body| :: LineId(body[k], index) == Some(id)
  {
    if body != [] {
      var n := |body| - 1;
      var init := body[..n];
      KeyedKeys(init, index);
      var dict := Keyed(init, index).value;
      var id := LineId(body[n], index).value;
      assert Keyed(body, index).value == dict[id := body[n]];
      forall x | x in dict[id := body[n]]
        ensures exists k | 0 <= k < |body| :: LineId(body[k], index) == Some(x)
      {
        if x == id {
          assert LineId(body[n], index) == Some(x);
        } else {
          assert x in dict;
          var k :| 0 <= k < n && LineId(init[k], index) == Some(x);
          assert body[k] == init[k];
          assert LineId(body[k], index) == Some(x);
        }
      }
      forall x, k | 0 <= k < |body| && LineId(body[k], index) == Some(x)
        ensures x in dict[id := body[n]]
      {
        if k < n {
          assert init[k] == body[k];
          assert LineId(init[k], index) == Some(x);
          assert x in dict;
        } else {
          assert k == n;
          assert LineId(body[n], index) == Some(x);
        }
      }
    }
  }

  /** A line last with its identifier in `body` is last in `body` minus its final line, which has another id. */
  lemma LastWithIdInit(body: seq<string>, index: nat, k: nat)
    requires k < |body| - 1 && LastWithId(body, index, k)
    ensures LastWithId(body[..|body| - 1], index, k)
    ensures LineId(body[k], index) != LineId(body[|body| - 1], index)
  {
    var init := body[..|body| - 1];
    assert init[k] == body[k];
    forall l | k < l < |init|
      ensures LineId(init[l], index) != LineId(init[k], index)
    {
      assert init[l] == body[l];
    }
  }

  /** Each identifier maps to the last line carrying it: later lines overwrite earlier ones. */
  lemma {:induction false} KeyedLast(body: seq<string>, index: nat)
    requires Keyed(body, index).Some?
    ensures forall k | 0 <= k < |body| && LastWithId(body, index, k) ::
      var id := LineId(body[k], index).value;
      id in Keyed(body, index).value && Keyed(body, index).value[id] == body[k]
  {
    if body != [] {
      var n := |body| - 1;
      var init := body[..n];
      KeyedLast(init, index);
      var dict := Keyed(init, index).value;
      var id := LineId(body[n], index).value;
      assert Keyed(body, index).value == dict[id := body[n]];
      forall k | 0 <= k < |body| && LastWithId(body, index, k)
        ensures var id := LineId(body[k], index).value;
          id in Keyed(body, index).value && Keyed(body, index).value[id] == body[k]
      {
        if k < n {
          LastWithIdInit(body, index, k);
        }
      }
    }
  }

  /** Keying the QC lines (lines 157-160); None stands for the IndexError a short line raises. */
  method KeyLines(body: seq<string>, index: nat) returns (dict: Option<map<string, string>>)
    ensures dict == Keyed(body, index)
  {
    var filled: map<string, string> := map[];
    for i := 0 to |body|
      invariant Keyed(body[..i], index) == Some(filled)
    {
      assert body[..i + 1][..i] == body[..i];
      var id := LineId(body[i], index);
      if id.None? {
        KeyedNone(body, index, i);
        return None;
      }
      filled := filled[id.value := body[i]];
    }
    assert body[..|body|] == body;
    return Some(filled);
  }

  /** A line without the id column makes every longer prefix fail too. */
  lemma {:induction false} KeyedNone(body: seq<string>, index: nat, i: nat)
    requires i < |body| && LineId(body[i], index).None?
    ensures Keyed(body, index).None?
  {
    KeyedSome(body, index);
  }

  /** The test of line 172: the mapping key contains `_ABCD-<subset>_`. */
  predicate Matches(id: string, subset: string)
  {
    Contains(id, "_ABCD-" + subset + "_")
  }

  /** The mapping keys some subset matches. */
  function Chosen(subsets: seq<string>, keys: seq<string>): set<string>
  {
    set id, k | id in keys && 0 <= k < |subsets| && Matches(id, subsets[k]) :: id
  }

  /** The selection loop (lines 168-173): a key is appended once for each subset it matches, so it is listed exactly when one of them matches it. */
  method SelectIds(subsets: seq<string>, keys: seq<string>) returns (ids: seq<string>)
    ensures forall id :: id in ids <==> id in Chosen(subsets, keys)
  {
    ids := [];
    for i := 0 to |subsets|
      invariant forall id :: id in ids <==> id in Chosen(subsets[..i], keys)
    {
      for j := 0 to |keys|
        invariant forall id :: id in ids <==>
          id in Chosen(subsets[..i], keys) || (id in keys[..j] && Matches(id, subsets[i]))
      {
        if Matches(keys[j], subsets[i]) {
          ids := ids + [keys[j]];
        }
        assert keys[..j + 1] == keys[..j] + [keys[j]];
      }
      ChosenSnoc(subsets, keys, i);
    }
    assert subsets[..|subsets|] == subsets;
  }

  lemma ChosenSnoc(subsets: seq<string>, keys: seq<string>, i: nat)
    requires i < |subsets|
    ensures forall id :: id in Chosen(subsets[..i + 1], keys) <==>
      id in Chosen(subsets[..i], keys) || (id in keys[..|keys|] && Matches(id, subsets[i]))
  {
    assert keys[..|keys|] == keys;
    var pre, next := subsets[..i], subsets[..i + 1];
    assert forall k | 0 <= k < i :: next[k] == pre[k];
    assert next[i] == subsets[i];
  }

  /**
   The substring test means what its underscores suggest: a key that splits on
   `_` into pieces contains `_ABCD-<subset>_` exactly when one of its inner
   pieces is `ABCD-<subset>`. For a `subject_session_type_time` identifier
   that is the session or the series type.
   */
  lemma MatchesInnerPiece(id: string, subset: string)
    requires '_' !in subset
    ensures Matches(id, subset) <==>
      exists i | 0 < i < |Split(id, '_')| - 1 :: Split(id, '_')[i] == "ABCD-" + subset
  {
    var x := "ABCD-" + subset;
    assert '_' !in x by {
      assert forall c | c in x :: c in "ABCD-" || c in subset;
    }
    JoinSplit(id, '_');
    DelimitedPiece(Split(id, '_'), x, '_');
    assert "_ABCD-" + subset + "_" == ['_'] + x + ['_'];
  }

  /**
   Selecting `T1` does not pick up a normalised T1 series: an identifier
   whose series type is `ABCD-T1-NORM`, with a session token other than
   `ABCD-T1`, is not matched by `T1`.
   */
  lemma T1SkipsNormalized(sub: string, ses: string, time: string)
    requires '_' !in sub && '_' !in ses && '_' !in time && ses != "ABCD-T1"
    ensures !Matches(sub + "_" + ses + "_ABCD-T1-NORM_" + time, "T1")
  {
    var pieces := [sub, ses, "ABCD-T1-NORM", time];
    var id := sub + "_" + ses + "_ABCD-T1-NORM_" + time;
    assert id == Join(pieces, '_') by {
      assert Join(pieces[3..], '_') == time;
      assert Join(pieces[2..], '_') == "ABCD-T1-NORM" + "_" + time;
      assert Join(pieces[1..], '_') == ses + "_" + ("ABCD-T1-NORM" + "_" + time);
    }
    assert forall p | p in pieces :: '_' !in p;
    DelimitedPiece(pieces, "ABCD-T1", '_');
    assert "_ABCD-" + "T1" + "_" == ['_'] + "ABCD-T1" + ['_'];
    assert pieces[2] != "ABCD-T1" by {
      assert |pieces[2]| != |"ABCD-T1"|;
    }
  }

  /**
   The exception is real: when the session token is itself `ABCD-T1`, the
   substring test finds `_ABCD-T1_` there and `T1` selects the normalised series.
   */
  lemma T1MatchesSessionT1(sub: string, time: string)
    requires '_' !in sub
    ensures Matches(sub + "_ABCD-T1_ABCD-T1-NORM_" + time, "T1")
  {
    var rest := "_ABCD-T1_ABCD-T1-NORM_" + time;
    assert "_ABCD-" + "T1" + "_" <= rest;
    ContainsSkipsPiece(sub, rest, "_ABCD-" + "T1" + "_", '_');
    assert sub + rest == sub + "_ABCD-T1_ABCD-T1-NORM_" + time;
  }

  /**
   Writing the subset QC file (lines 182-186): the two header lines, then the
   stored line of each identifier of `final`, each once, in the order
   `list(final)` yields.
   */
  method WriteSubsetQc(lines: seq<string>, dict: map<string, string>, final: set<string>)
    returns (out: seq<string>, order: seq<string>)
    requires |lines| >= 2 && final <= dict.Keys
    ensures NoDup(order) && forall id :: id in order <==> id in final
    ensures |out| == |order| + 2 && out[..2] == lines[..2]
    ensures forall i | 0 <= i < |order| :: out[i + 2] == dict[order[i]]
  {
    out := [lines[0], lines[1]];
    order := ListOf(final);
    for i := 0 to |order|
      invariant |out| == i + 2 && out[..2] == lines[..2]
      invariant forall k | 0 <= k < i :: out[k + 2] == dict[order[k]]
    {
      out := out + [dict[order[i]]];
    }
  }

  /** What a completed run produces. */
  datatype SubsetQc = SubsetQc(subsets: seq<string>, final: set<string>, order: seq<string>, qcFile: seq<string>)

  /**
   The whole tool on already-parsed arguments: `types` from `--types`, `lines`
   the QC file's lines and `keys` the mapping's keys. None when Python stops
   with an IndexError: fewer than two lines, or a data line without the id
   column.
   */
  method SubsetData(types: seq<DataType>, lines: seq<string>, keys: seq<string>) returns (r: Option<SubsetQc>)
    ensures r.None? <==> |lines| < 2 || Keyed(lines[2..], IdColumn(lines[0])).None?
    ensures r.Some? ==>
      var dict := Keyed(lines[2..], IdColumn(lines[0])).value;
      var q := r.value;
      && SortedBy(q.subsets, Self) && NoDup(q.subsets)
      && (forall d :: d in q.subsets <==> d in Expanded(types))
      && (forall id :: id in q.final <==>
            id in keys && id in dict && exists d | d in Expanded(types) :: Matches(id, d))
      && NoDup(q.order) && (forall id :: id in q.order <==> id in q.final)
      && |q.qcFile| == |q.order| + 2 && q.qcFile[..2] == lines[..2]
      && (forall i | 0 <= i < |q.order| :: q.qcFile[i + 2] == dict[q.order[i]])
  {
    var datatypes, subsets := ExpandTypes(types);
    if |lines| < 2 {
      return None;
    }
    var index := FindIdColumn(lines[0]);
    var keyed := KeyLines(lines[2..], index);
    if keyed.None? {
      return None;
    }
    var dict := keyed.value;
    var ids := SelectIds(subsets, keys);
    var final := Elems(ids) * dict.Keys;
    var out, order := WriteSubsetQc(lines, dict, final);
    forall id
      ensures id in final <==> id in keys && id in dict && exists d | d in Expanded(types) :: Matches(id, d)
    {
      if id in keys && id in dict && exists d | d in Expanded(types) :: Matches(id, d) {
        var d :| d in Expanded(types) && Matches(id, d);
        var k :| 0 <= k < |subsets| && subsets[k] == d;
        assert id in Chosen(subsets, keys);
      }
    }
    return Some(SubsetQc(subsets, final, order, out));
  }
}
