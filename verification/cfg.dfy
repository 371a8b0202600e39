/**
  Control-flow graph construction: `form_cfg` of briltool/cfg.py and its
  older copy in my-cfg/my-cfg.py, which share one successor rule.

  The Python loop computes each block's successors and immediately
  records them; an exception aborts the whole construction.  Here the
  successor lists of all blocks are computed first (`SuccessorList`,
  failing at the first block that fails) and then recorded (`AddEdges`),
  which produces the same dictionaries whenever the loop completes.
 */
module Cfg {
  import opened Common
  import opened OrderedMap
  import opened Ir
  import opened Blocks

  /** The exceptions CFG construction can raise. */
  datatype CfgError =
    | UnresolvedLabel(target: string)   // KeyError: a target label with no block
    | MissingTargets(blockId: string)  // KeyError: a jmp/br without a `labels` field
    | EmptyBlock(blockId: string)      // IndexError: `block[-1]` of an empty block (my-cfg.py only)

  /** `[label_to_block_id[t] for t in labels]`, failing at the first unknown label. */
  function Resolve(ls: seq<string>, l2b: ODict<string, string>): (r: Result<seq<string>, CfgError>)
    ensures r.Ok? <==> forall i :: 0 <= i < |ls| ==> ls[i] in Keys(l2b)
    ensures r.Ok? ==> |r.value| == |ls| && forall i :: 0 <= i < |ls| ==> Get(l2b, ls[i]) == Some(r.value[i])
    ensures r.Err? ==> exists i :: 0 <= i < |ls| && ls[i] !in Keys(l2b) && r.error == UnresolvedLabel(ls[i])
    decreases |ls|
  {
    if |ls| == 0 then Ok([])
    else if ls[0] !in Keys(l2b) then Err(UnresolvedLabel(ls[0]))
    else
      match Resolve(ls[1..], l2b)
      case Err(e) =>
        assert forall i :: 0 <= i < |ls| - 1 ==> ls[1..][i] == ls[i + 1];
        Err(e)
      case Ok(rest) =>
        assert forall i :: 1 <= i < |ls| ==> ls[i] == ls[1..][i - 1];
        Ok([Get(l2b, ls[0]).value] + rest)
  }

  /** The next block in dictionary order, or none after the last block. */
  function Fallthrough(lm: ODict<string, seq<Instr>>, idx: nat): seq<string>
    requires idx < |lm|
  {
    if idx + 1 < |lm| then [lm[idx + 1].0] else []
  }

  predicate IsJump(i: Instr) {
    i.op == Some("jmp") || i.op == Some("br")
  }

  /**
    The successors of the block at position idx.  `guarded` selects
    cfg.py, which treats an empty block as `{}` and lets it fall through;
    my-cfg.py reads `block[-1]` unguarded and fails.
   */
  function BlockTargets(lm: ODict<string, seq<Instr>>, l2b: ODict<string, string>, idx: nat, guarded: bool)
    : Result<seq<string>, CfgError>
    requires idx < |lm|
  {
    var block := lm[idx].1;
    if |block| == 0 then
      if guarded then Ok(Fallthrough(lm, idx)) else Err(EmptyBlock(lm[idx].0))
    else
      var last := block[|block| - 1];
      if IsJump(last) then
        if last.labels.None? then Err(MissingTargets(lm[idx].0)) else Resolve(last.labels.value, l2b)
      else if last.op == Some("ret") then Ok([])
      else Ok(Fallthrough(lm, idx))
  }

  /** The (block id, successors) pairs of the first n blocks, or the first failure among them. */
  function SuccessorList(lm: ODict<string, seq<Instr>>, l2b: ODict<string, string>, guarded: bool, n: nat)
    : Result<seq<(string, seq<string>)>, CfgError>
    requires n <= |lm|
    decreases n
  {
    if n == 0 then Ok([])
    else
      match SuccessorList(lm, l2b, guarded, n - 1)
      case Err(e) => Err(e)
      case Ok(es) =>
        match BlockTargets(lm, l2b, n - 1, guarded)
        case Err(e) => Err(e)
        case Ok(ts) => Ok(es + [(lm[n - 1].0, ts)])
  }

  /**
    The successor computation succeeds exactly when every block's rule
    does; it then holds one entry per block, in block order, under the
    block's id, and otherwise reports the error of a failing block.
   */
  lemma {:induction false} SuccessorListSpec(lm: ODict<string, seq<Instr>>, l2b: ODict<string, string>, guarded: bool, n: nat)
    requires n <= |lm|
    ensures var r := SuccessorList(lm, l2b, guarded, n);
            && (r.Ok? <==> forall i :: 0 <= i < n ==> BlockTargets(lm, l2b, i, guarded).Ok?)
            && (r.Ok? ==> |r.value| == n)
            && (r.Ok? ==> forall i :: 0 <= i < n ==>
                  r.value[i].0 == lm[i].0 && BlockTargets(lm, l2b, i, guarded) == Ok(r.value[i].1))
            && (r.Err? ==> exists i :: 0 <= i < n && BlockTargets(lm, l2b, i, guarded) == Err(r.error))
    decreases n
  {
    if n > 0 {
      SuccessorListSpec(lm, l2b, guarded, n - 1);
      SuccessorListStep(lm, l2b, guarded, n);
    }
  }

  predicate ListMatches(lm: ODict<string, seq<Instr>>, l2b: ODict<string, string>, guarded: bool, n: nat,
                        es: seq<(string, seq<string>)>)
    requires n <= |lm|
  {
    |es| == n && forall i :: 0 <= i < n ==> es[i].0 == lm[i].0 && BlockTargets(lm, l2b, i, guarded) == Ok(es[i].1)
  }

  lemma SuccessorListStep(lm: ODict<string, seq<Instr>>, l2b: ODict<string, string>, guarded: bool, n: nat)
    requires 0 < n <= |lm|
    requires var r := SuccessorList(lm, l2b, guarded, n - 1);
             && (r.Ok? <==> forall i :: 0 <= i < n - 1 ==> BlockTargets(lm, l2b, i, guarded).Ok?)
             && (r.Ok? ==> ListMatches(lm, l2b, guarded, n - 1, r.value))
             && (r.Err? ==> exists i :: 0 <= i < n - 1 && BlockTargets(lm, l2b, i, guarded) == Err(r.error))
    ensures var r := SuccessorList(lm, l2b, guarded, n);
            && (r.Ok? <==> forall i :: 0 <= i < n ==> BlockTargets(lm, l2b, i, guarded).Ok?)
            && (r.Ok? ==> ListMatches(lm, l2b, guarded, n, r.value))
            && (r.Err? ==> exists i :: 0 <= i < n && BlockTargets(lm, l2b, i, guarded) == Err(r.error))
  {
    var r0 := SuccessorList(lm, l2b, guarded, n - 1);
    if r0.Ok? {
      var bt := BlockTargets(lm, l2b, n - 1, guarded);
      if bt.Ok? {
        var es := r0.value + [(lm[n - 1].0, bt.value)];
        assert SuccessorList(lm, l2b, guarded, n) == Ok(es);
        forall i | 0 <= i < n ensures es[i].0 == lm[i].0 && BlockTargets(lm, l2b, i, guarded) == Ok(es[i].1) {
          if i < n - 1 {
            assert es[i] == r0.value[i];
          }
        }
      }
    }
  }

  /** `for t in targets: predecessors.setdefault(t, []).append(a)`. */
  function AppendPreds(pred: ODict<string, seq<string>>, a: string, ts: seq<string>): ODict<string, seq<string>>
    decreases |ts|
  {
    if |ts| == 0 then pred
    else
      var p := AppendPreds(pred, a, ts[..|ts| - 1]);
      var t := ts[|ts| - 1];
      Put(p, t, GetOr(p, t, []) + [a])
  }

  /** Records every block's successors and the matching predecessor entries, in block order. */
  function AddEdges(succ: ODict<string, seq<string>>, pred: ODict<string, seq<string>>,
                    es: seq<(string, seq<string>)>): (ODict<string, seq<string>>, ODict<string, seq<string>>)
    decreases |es|
  {
    if |es| == 0 then (succ, pred)
    else
      var (s, p) := AddEdges(succ, pred, es[..|es| - 1]);
      var (a, ts) := es[|es| - 1];
      (Put(s, a, ts), AppendPreds(p, a, ts))
  }

  /** `for label in label_map: m.setdefault(label, [])`. */
  function FillMissing(m: ODict<string, seq<string>>, ids: seq<string>): ODict<string, seq<string>>
    decreases |ids|
  {
    if |ids| == 0 then m
    else
      var m' := FillMissing(m, ids[..|ids| - 1]);
      var k := ids[|ids| - 1];
      if k in Keys(m') then m' else m' + [(k, [])]
  }

  /**
    The loop of `form_cfg` over blocks starting from existing successor and
    predecessor dictionaries, followed by the fill-in loop.
   */
  function BuildCfg(lm: ODict<string, seq<Instr>>, l2b: ODict<string, string>,
                    succ0: ODict<string, seq<string>>, pred0: ODict<string, seq<string>>, guarded: bool)
    : Result<(ODict<string, seq<string>>, ODict<string, seq<string>>), CfgError>
  {
    match SuccessorList(lm, l2b, guarded, |lm|)
    case Err(e) => Err(e)
    case Ok(es) =>
      var (s, p) := AddEdges(succ0, pred0, es);
      Ok((FillMissing(s, Keys(lm)), FillMissing(p, Keys(lm))))
  }

  /** `form_cfg` of cfg.py: clears both dictionaries, then builds them. */
  function FormCfg(b: BlockInfo): Result<BlockInfo, CfgError> {
    match BuildCfg(b.labelMap, b.labelToBlockId, [], [], true)
    case Err(e) => Err(e)
    case Ok((s, p)) => Ok(b.(successors := s, predecessors := p))
  }

  // ---------------------------------------------------------------------
  // The reference for predecessor lists
  // ---------------------------------------------------------------------

  function Repeat(a: string, k: nat): (r: seq<string>)
    ensures |r| == k
    ensures forall i :: 0 <= i < k ==> r[i] == a
  {
    seq(k, _ => a)
  }

  /**
    The predecessor list of b the edges `es` imply: every source block, in
    block order, once per occurrence of b among its successors.
   */
  function PredsOf(es: seq<(string, seq<string>)>, b: string): seq<string>
    decreases |es|
  {
    if |es| == 0 then []
    else PredsOf(es[..|es| - 1], b) + Repeat(es[|es| - 1].0, multiset(es[|es| - 1].1)[b])
  }

  lemma {:induction false} AppendPredsSpec(pred: ODict<string, seq<string>>, a: string, ts: seq<string>, b: string)
    ensures GetOr(AppendPreds(pred, a, ts), b, []) == GetOr(pred, b, []) + Repeat(a, multiset(ts)[b])
    ensures b in Keys(AppendPreds(pred, a, ts)) <==> b in Keys(pred) || b in ts
    decreases |ts|
  {
    if |ts| > 0 {
      var init := ts[..|ts| - 1];
      var t := ts[|ts| - 1];
      AppendPredsSpec(pred, a, init, b);
      var p := AppendPreds(pred, a, init);
      assert AppendPreds(pred, a, ts) == Put(p, t, GetOr(p, t, []) + [a]);
      AppendOne(p, a, t, b);
      SnocCount(ts, b);
      RepeatGrow(GetOr(pred, b, []), a, multiset(init)[b], t == b,
                 GetOr(p, b, []), GetOr(AppendPreds(pred, a, ts), b, []));
    } else {
      RepeatNone(GetOr(pred, b, []), a);
    }
  }

  lemma RepeatNone(x: seq<string>, a: string)
    ensures x + Repeat(a, 0) == x
  {
    assert Repeat(a, 0) == [];
  }

  lemma SnocCount(ts: seq<string>, b: string)
    requires |ts| > 0
    ensures multiset(ts)[b] == multiset(ts[..|ts| - 1])[b] + (if ts[|ts| - 1] == b then 1 else 0)
    ensures b in ts <==> b in ts[..|ts| - 1] || b == ts[|ts| - 1]
  {
    LastSplit(ts);
  }

  /** Appending one more copy of a to a list that ends in k copies of it. */
  lemma RepeatGrow(x: seq<string>, a: string, k: nat, more: bool, y: seq<string>, z: seq<string>)
    requires y == x + Repeat(a, k)
    requires z == y + (if more then [a] else [])
    ensures z == x + Repeat(a, k + (if more then 1 else 0))
  {
    if more {
      assert Repeat(a, k) + [a] == Repeat(a, k + 1);
      assert (x + Repeat(a, k)) + [a] == x + (Repeat(a, k) + [a]);
    } else {
      assert y + [] == y;
    }
  }

  /** `preds.setdefault(t, []).append(a)` seen from one block b. */
  lemma AppendOne(p: ODict<string, seq<string>>, a: string, t: string, b: string)
    ensures GetOr(Put(p, t, GetOr(p, t, []) + [a]), b, []) == GetOr(p, b, []) + (if b == t then [a] else [])
    ensures b in Keys(Put(p, t, GetOr(p, t, []) + [a])) <==> b in Keys(p) || b == t
  {
  }

  lemma {:induction false} AddEdgesPreds(succ: ODict<string, seq<string>>, pred: ODict<string, seq<string>>,
                                         es: seq<(string, seq<string>)>, b: string)
    ensures GetOr(AddEdges(succ, pred, es).1, b, []) == GetOr(pred, b, []) + PredsOf(es, b)
    decreases |es|
  {
    if |es| > 0 {
      var init := es[..|es| - 1];
      AddEdgesPreds(succ, pred, init, b);
      var (a, ts) := es[|es| - 1];
      AppendPredsSpec(AddEdges(succ, pred, init).1, a, ts, b);
    }
  }

  lemma {:induction false} AddEdgesSuccs(pred: ODict<string, seq<string>>, es: seq<(string, seq<string>)>)
    ensures AddEdges([], pred, es).0 == PutAll([], es)
    decreases |es|
  {
    if |es| > 0 {
      AddEdgesSuccs(pred, es[..|es| - 1]);
    }
  }

  lemma {:induction false} FillMissingSpec(m: ODict<string, seq<string>>, ids: seq<string>, k: string)
    ensures GetOr(FillMissing(m, ids), k, []) == GetOr(m, k, [])
    ensures k in Keys(m) ==> Get(FillMissing(m, ids), k) == Get(m, k)
    ensures k in Keys(FillMissing(m, ids)) <==> k in Keys(m) || k in ids
    ensures DistinctKeys(m) ==> DistinctKeys(FillMissing(m, ids))
    decreases |ids|
  {
    if |ids| > 0 {
      var init := ids[..|ids| - 1];
      FillMissingSpec(m, init, k);
      var m' := FillMissing(m, init);
      var x := ids[|ids| - 1];
      assert ids == init + [x];
      if x !in Keys(m') {
        assert Put(m', x, []) == m' + [(x, [])];
      }
    }
  }

  /** Counting occurrences: a in preds(b) as often as b in succs(a), when block ids are distinct. */
  lemma {:induction false} PredsCount(es: seq<(string, seq<string>)>, a: string, b: string)
    requires DistinctKeys(es)
    ensures multiset(PredsOf(es, b))[a] == multiset(GetOr(es, a, []))[b]
    decreases |es|
  {
    if |es| > 0 {
      var init := es[..|es| - 1];
      var last := es[|es| - 1];
      LastSplit(es);
      DistinctSnoc(init, last);
      PredsCount(init, a, b);
      GetOrSnocNew(init, last, a);
      RepeatCount(last.0, multiset(last.1)[b], a);
      var before := PredsOf(init, b);
      var more := Repeat(last.0, multiset(last.1)[b]);
      assert PredsOf(es, b) == before + more;
      assert multiset(before + more) == multiset(before) + multiset(more);
    }
  }

  /** Dropping the last entry of a dictionary keeps it one, and its key is not among the others. */
  lemma DistinctSnoc<V>(init: ODict<string, V>, last: (string, V))
    requires DistinctKeys(init + [last])
    ensures DistinctKeys(init) && last.0 !in Keys(init)
  {
    var es := init + [last];
    forall i | 0 <= i < |init| ensures Keys(init)[i] != last.0 {
      assert es[i] == init[i] && es[|init|] == last;
    }
    forall i, j | 0 <= i < j < |init| ensures init[i].0 != init[j].0 {
      assert es[i] == init[i] && es[j] == init[j];
    }
  }

  /** Looking up a key in a dictionary extended by an entry for a new key. */
  lemma GetOrSnocNew(init: ODict<string, seq<string>>, last: (string, seq<string>), a: string)
    requires last.0 !in Keys(init)
    ensures GetOr(init + [last], a, []) == if a == last.0 then last.1 else GetOr(init, a, [])
  {
    assert Put(init, last.0, last.1) == init + [last];
  }

  lemma {:induction false} RepeatCount(x: string, k: nat, a: string)
    ensures multiset(Repeat(x, k))[a] == if x == a then k else 0
    decreases k
  {
    if k > 0 {
      assert Repeat(x, k) == Repeat(x, k - 1) + [x];
      RepeatCount(x, k - 1, a);
    }
  }

  /** The fill-in loop changes nothing when every id already has an entry. */
  lemma {:induction false} FillMissingNoop(m: ODict<string, seq<string>>, ids: seq<string>)
    requires forall i :: 0 <= i < |ids| ==> ids[i] in Keys(m)
    ensures FillMissing(m, ids) == m
    decreases |ids|
  {
    if |ids| > 0 {
      FillMissingNoop(m, ids[..|ids| - 1]);
    }
  }

  /** The recorded edge list has one entry per block, under the block's own id. */
  lemma SuccessorListKeys(lm: ODict<string, seq<Instr>>, l2b: ODict<string, string>, guarded: bool)
    requires SuccessorList(lm, l2b, guarded, |lm|).Ok?
    ensures Keys(SuccessorList(lm, l2b, guarded, |lm|).value) == Keys(lm)
    ensures DistinctKeys(lm) ==> DistinctKeys(SuccessorList(lm, l2b, guarded, |lm|).value)
  {
    SuccessorListSpec(lm, l2b, guarded, |lm|);
    var es := SuccessorList(lm, l2b, guarded, |lm|).value;
    assert forall i :: 0 <= i < |es| ==> es[i].0 == lm[i].0;
  }

  // ---------------------------------------------------------------------
  // form_cfg of cfg.py
  // ---------------------------------------------------------------------

  /** The successor lists form_cfg computes for the blocks of b, when every block succeeds. */
  function EdgeList(b: BlockInfo): seq<(string, seq<string>)>
    requires SuccessorList(b.labelMap, b.labelToBlockId, true, |b.labelMap|).Ok?
  {
    SuccessorList(b.labelMap, b.labelToBlockId, true, |b.labelMap|).value
  }

  /**
    What form_cfg guarantees: it fails exactly when some block's successor
    rule fails; otherwise it leaves the blocks alone, gives every block
    (and nothing else) a successor entry holding that block's targets,
    gives every block a predecessor entry, and running it again on its own
    result changes nothing.
   */
  lemma FormCfgShape(b: BlockInfo)
    requires DistinctKeys(b.labelMap)
    ensures FormCfg(b).Err? <==>
              exists i :: 0 <= i < |b.labelMap| && BlockTargets(b.labelMap, b.labelToBlockId, i, true).Err?
    ensures FormCfg(b).Ok? ==>
              var r := FormCfg(b).value;
              r.functionName == b.functionName && r.labelMap == b.labelMap &&
              r.labelToBlockId == b.labelToBlockId && r.functionMeta == b.functionMeta &&
              DistinctKeys(r.successors) && DistinctKeys(r.predecessors) &&
              (forall i :: 0 <= i < |b.labelMap| ==>
                 BlockTargets(b.labelMap, b.labelToBlockId, i, true).Ok? &&
                 Get(r.successors, b.labelMap[i].0) == Some(BlockTargets(b.labelMap, b.labelToBlockId, i, true).value)) &&
              (forall k :: k in Keys(r.successors) <==> k in Keys(b.labelMap)) &&
              (forall k :: k in Keys(b.labelMap) ==> k in Keys(r.predecessors)) &&
              FormCfg(r) == FormCfg(b)
  {
    FormCfgFails(b);
    if FormCfg(b).Ok? {
      FormCfgTargets(b);
      FormCfgPredKeys(b);
    }
  }

  lemma FormCfgFails(b: BlockInfo)
    ensures FormCfg(b).Err? <==>
              exists i :: 0 <= i < |b.labelMap| && BlockTargets(b.labelMap, b.labelToBlockId, i, true).Err?
  {
    SuccessorListSpec(b.labelMap, b.labelToBlockId, true, |b.labelMap|);
  }

  /** Each block's successor entry holds exactly its targets, and only blocks have entries. */
  lemma FormCfgTargets(b: BlockInfo)
    requires DistinctKeys(b.labelMap)
    requires FormCfg(b).Ok?
    ensures DistinctKeys(FormCfg(b).value.successors)
    ensures forall i :: 0 <= i < |b.labelMap| ==>
              BlockTargets(b.labelMap, b.labelToBlockId, i, true).Ok? &&
              Get(FormCfg(b).value.successors, b.labelMap[i].0) == Some(BlockTargets(b.labelMap, b.labelToBlockId, i, true).value)
    ensures forall k :: k in Keys(FormCfg(b).value.successors) <==> k in Keys(b.labelMap)
  {
    var lm, l2b := b.labelMap, b.labelToBlockId;
    var es := EdgeList(b);
    FormCfgSuccessors(b);
    SuccessorListSpec(lm, l2b, true, |lm|);
    forall i | 0 <= i < |lm|
      ensures BlockTargets(lm, l2b, i, true).Ok? && Get(es, lm[i].0) == Some(BlockTargets(lm, l2b, i, true).value)
    {
      GetAt(es, i);
    }
  }

  /** Every block has a predecessor entry, and the dictionary keeps distinct keys. */
  lemma FormCfgPredKeys(b: BlockInfo)
    requires FormCfg(b).Ok?
    ensures DistinctKeys(FormCfg(b).value.predecessors)
    ensures forall k :: k in Keys(b.labelMap) ==> k in Keys(FormCfg(b).value.predecessors)
  {
    var es := EdgeList(b);
    var p := AddEdges([], [], es).1;
    assert FormCfg(b).value.predecessors == FillMissing(p, Keys(b.labelMap));
    forall k ensures k in Keys(b.labelMap) ==> k in Keys(FillMissing(p, Keys(b.labelMap))) {
      FillMissingSpec(p, Keys(b.labelMap), k);
    }
    AddEdgesPredsDistinct([], [], es);
    FillMissingSpec(p, Keys(b.labelMap), "");
  }

  lemma {:induction false} AppendPredsDistinct(pred: ODict<string, seq<string>>, a: string, ts: seq<string>)
    requires DistinctKeys(pred)
    ensures DistinctKeys(AppendPreds(pred, a, ts))
    decreases |ts|
  {
    if |ts| > 0 {
      AppendPredsDistinct(pred, a, ts[..|ts| - 1]);
    }
  }

  lemma {:induction false} AddEdgesPredsDistinct(succ: ODict<string, seq<string>>, pred: ODict<string, seq<string>>,
                                                 es: seq<(string, seq<string>)>)
    requires DistinctKeys(pred)
    ensures DistinctKeys(AddEdges(succ, pred, es).1)
    decreases |es|
  {
    if |es| > 0 {
      AddEdgesPredsDistinct(succ, pred, es[..|es| - 1]);
      var (a, ts) := es[|es| - 1];
      AppendPredsDistinct(AddEdges(succ, pred, es[..|es| - 1]).1, a, ts);
    }
  }

  /** With distinct block ids the successor dictionary is the edge list itself. */
  lemma FormCfgSuccessors(b: BlockInfo)
    requires DistinctKeys(b.labelMap)
    requires FormCfg(b).Ok?
    ensures DistinctKeys(EdgeList(b))
    ensures FormCfg(b).value.successors == EdgeList(b)
  {
    var es := EdgeList(b);
    SuccessorListKeys(b.labelMap, b.labelToBlockId, true);
    AddEdgesSuccs([], es);
    PutAllDistinct(es);
    FillMissingNoop(es, Keys(b.labelMap));
  }

  /**
    The predecessor list of every block lists the blocks that name it as a
    successor, in block order, once per naming.
   */
  lemma FormCfgPredecessors(b: BlockInfo, c: string)
    requires FormCfg(b).Ok?
    ensures GetOr(FormCfg(b).value.predecessors, c, []) == PredsOf(EdgeList(b), c)
  {
    var es := EdgeList(b);
    var (s, p) := AddEdges([], [], es);
    AddEdgesPreds([], [], es, c);
    FillMissingSpec(p, Keys(b.labelMap), c);
  }

  /**
    The two dictionaries describe the same edges: a occurs among the
    predecessors of c exactly as often as c occurs among the successors of a.
   */
  lemma FormCfgSymmetry(b: BlockInfo, a: string, c: string)
    requires DistinctKeys(b.labelMap)
    requires FormCfg(b).Ok?
    ensures multiset(GetOr(FormCfg(b).value.successors, a, []))[c] ==
            multiset(GetOr(FormCfg(b).value.predecessors, c, []))[a]
  {
    var es := EdgeList(b);
    FormCfgSuccessors(b);
    FormCfgPredecessors(b, c);
    PredsCount(es, a, c);
  }

  /** Under resolvable labels, a successful block's targets are all block ids. */
  lemma TargetsAreBlocks(lm: ODict<string, seq<Instr>>, l2b: ODict<string, string>, idx: nat, guarded: bool)
    requires idx < |lm|
    requires LabelsResolve(lm, l2b)
    requires BlockTargets(lm, l2b, idx, guarded).Ok?
    ensures forall c :: c in BlockTargets(lm, l2b, idx, guarded).value ==> c in Keys(lm)
  {
    if idx + 1 < |lm| {
      assert Keys(lm)[idx + 1] == lm[idx + 1].0;
    }
    var block := lm[idx].1;
    if |block| > 0 && IsJump(block[|block| - 1]) {
      var ls := block[|block| - 1].labels.value;
      var r := Resolve(ls, l2b).value;
      forall j | 0 <= j < |r| ensures r[j] in Keys(lm) {
        assert GetOr(l2b, ls[j], "") == r[j];
      }
    }
  }

  lemma {:induction false} AddEdgesPredKeys(succ: ODict<string, seq<string>>, pred: ODict<string, seq<string>>,
                                            es: seq<(string, seq<string>)>, k: string)
    ensures k in Keys(AddEdges(succ, pred, es).1) ==>
              k in Keys(pred) || exists i :: 0 <= i < |es| && k in es[i].1
    decreases |es|
  {
    if |es| > 0 {
      var init := es[..|es| - 1];
      AddEdgesPredKeys(succ, pred, init, k);
      var (a, ts) := es[|es| - 1];
      AppendPredsSpec(AddEdges(succ, pred, init).1, a, ts, k);
      if k in Keys(AddEdges(succ, pred, init).1) && k !in Keys(pred) {
        var i :| 0 <= i < |init| && k in init[i].1;
        assert es[i] == init[i];
      }
    }
  }

  /**
    When every label resolves to a block (as `form_blocks` guarantees), the
    graph is closed: every successor is a block, and the predecessor
    dictionary has an entry for exactly the blocks.
   */
  lemma FormCfgClosed(b: BlockInfo)
    requires DistinctKeys(b.labelMap)
    requires LabelsResolve(b.labelMap, b.labelToBlockId)
    requires FormCfg(b).Ok?
    ensures forall a, c :: c in GetOr(FormCfg(b).value.successors, a, []) ==> c in Keys(b.labelMap)
    ensures forall k :: k in Keys(FormCfg(b).value.predecessors) <==> k in Keys(b.labelMap)
  {
    var lm, l2b := b.labelMap, b.labelToBlockId;
    var es := EdgeList(b);
    FormCfgSuccessors(b);
    SuccessorListSpec(lm, l2b, true, |lm|);
    forall i | 0 <= i < |es| ensures forall c :: c in es[i].1 ==> c in Keys(lm) {
      TargetsAreBlocks(lm, l2b, i, true);
    }
    forall a, c | c in GetOr(es, a, []) ensures c in Keys(lm) {
      if a in Keys(es) {
        var i := IndexOf(es, a);
        assert GetOr(es, a, []) == es[i].1;
      }
    }
    var p := AddEdges([], [], es).1;
    forall k ensures k in Keys(FormCfg(b).value.predecessors) <==> k in Keys(lm) {
      FillMissingSpec(p, Keys(lm), k);
      AddEdgesPredKeys([], [], es, k);
    }
  }
}
