/**
  The standalone CFG script my-cfg/my-cfg.py: its own `form_blocks`, which
  also keeps the emitted blocks as a list and numbers synthetic blocks from
  1, and its own `form_cfg`, which neither clears the dictionaries nor
  guards against an empty block.

  The block builder is related to the one of briltool/cfg.py step by step:
  both consume the stream identically, so they emit the same blocks and
  differ only in the first synthetic number.
 */
module Standalone {
  import opened Common
  import opened OrderedMap
  import opened Ir
  import Blocks
  import Cfg

  /** The `BlockInfo` dataclass of my-cfg.py. */
  datatype Info = Info(
    functionName: string,
    blocks: seq<seq<Instr>>,
    labelMap: ODict<string, seq<Instr>>,
    labelToBlockId: ODict<string, string>,
    successors: ODict<string, seq<string>>,
    predecessors: ODict<string, seq<string>>
  )

  /** The local state of this `form_blocks`. */
  datatype ScanState = ScanState(
    blocks: seq<seq<Instr>>,
    labelMap: ODict<string, seq<Instr>>,
    labelToBlockId: ODict<string, string>,
    counter: nat,
    current: seq<Instr>,
    currentLabel: Option<string>
  )

  const ScanStart: ScanState := ScanState([], [], [], 0, [], None)

  /**
    The `if current_block:` emission: name a non-empty accumulator (the
    generator first yields number 1) and record it in both the list and the
    dictionary.  The accumulator itself is reset by the caller.
   */
  function Store(fname: string, st: ScanState): ScanState {
    if |st.current| == 0 then st
    else
      var id := if st.currentLabel.Some? then Blocks.LabelledId(fname, st.currentLabel.value)
                else Blocks.SyntheticId(fname, st.counter + 1);
      st.(blocks := st.blocks + [st.current],
          labelMap := Put(st.labelMap, id, st.current),
          labelToBlockId := if st.currentLabel.Some? then Put(st.labelToBlockId, st.currentLabel.value, id)
                            else st.labelToBlockId,
          counter := if st.currentLabel.Some? then st.counter else st.counter + 1)
  }

  /** One iteration of the loop over `body`. */
  function ScanStep(fname: string, st: ScanState, x: Instr): ScanState {
    var st1 := if !IsLabel(x) then st.(current := st.current + [x]) else st;
    if IsLabel(x) || IsTerminator(x) then
      Store(fname, st1).(currentLabel := if IsLabel(x) then x.labelName else None, current := [])
    else st1
  }

  function Scan(fname: string, body: seq<Instr>): ScanState
    decreases |body|
  {
    if |body| == 0 then ScanStart
    else ScanStep(fname, Scan(fname, body[..|body| - 1]), body[|body| - 1])
  }

  /** `form_blocks(body, name)` of my-cfg.py. */
  function FormBlocks(body: seq<Instr>, fname: string): Info {
    var st := Store(fname, Scan(fname, body));
    Info(fname, st.blocks, st.labelMap, st.labelToBlockId, [], [])
  }

  // ---------------------------------------------------------------------
  // Agreement with the builder of briltool/cfg.py
  // ---------------------------------------------------------------------

  /** The emitted part of a scan state, described by a trace of the other builder. */
  predicate Agrees(fname: string, s: ScanState, b: Blocks.BuildState) {
    && s.blocks == Blocks.BlockInstrs(b.trace)
    && s.labelMap == PutAll([], Blocks.Named(fname, b.trace, 1))
    && s.labelToBlockId == b.labelToBlockId
    && s.counter == b.counter
    && b.counter == Blocks.CountSynthetic(b.trace)
  }

  lemma StoreAgrees(fname: string, s: ScanState, b: Blocks.BuildState)
    requires Agrees(fname, s, b)
    requires s.current == b.current && s.currentLabel == b.currentLabel
    ensures Agrees(fname, Store(fname, s), Blocks.CloseBlock(fname, b))
  {
    if |s.current| > 0 {
      var seg := Blocks.Segment(b.currentLabel, b.current);
      var t := Blocks.CloseBlock(fname, b).trace;
      assert t == b.trace + [seg];
      StoreNames(fname, s);
      Blocks.CloseLabelMap(fname, b.trace, seg, 1, s.counter + 1);
      Blocks.CountSnoc(b.trace, seg);
      Blocks.BlockInstrsSnoc(b.trace, seg);
    }
  }

  /** The id `Store` hands a block is the one the other builder would with a generator starting at 1. */
  lemma StoreNames(fname: string, s: ScanState)
    requires |s.current| > 0
    ensures Store(fname, s).labelMap
            == Put(s.labelMap, Blocks.NameOf(fname, Blocks.Segment(s.currentLabel, s.current), s.counter + 1), s.current)
  {
  }

  lemma {:induction false} ScanAgrees(fname: string, p: seq<Instr>)
    ensures Agrees(fname, Scan(fname, p), Blocks.Run(fname, p))
    ensures Scan(fname, p).current == Blocks.Run(fname, p).current
    ensures Scan(fname, p).currentLabel == Blocks.Run(fname, p).currentLabel
    decreases |p|
  {
    if |p| > 0 {
      var init := p[..|p| - 1];
      var x := p[|p| - 1];
      ScanAgrees(fname, init);
      var s, b := Scan(fname, init), Blocks.Run(fname, init);
      var s1 := if !IsLabel(x) then s.(current := s.current + [x]) else s;
      var b1 := if IsLabel(x) then b else b.(current := b.current + [x]);
      if IsLabel(x) || IsTerminator(x) {
        StoreAgrees(fname, s1, b1);
      }
    }
  }

  /**
    This `form_blocks` emits the same blocks as the one of briltool/cfg.py,
    in the same order (kept in `blocks`), records the same label entries,
    and names synthetic blocks `name::b<k>` counting from 1 instead of 0.
   */
  lemma FormBlocksAgree(body: seq<Instr>, fname: string)
    ensures FormBlocks(body, fname).blocks == Blocks.BlockInstrs(Blocks.Segments(body, fname))
    ensures FormBlocks(body, fname).labelMap == PutAll([], Blocks.Named(fname, Blocks.Segments(body, fname), 1))
    ensures FormBlocks(body, fname).labelToBlockId == Blocks.FormBlocks(body, fname).labelToBlockId
  {
    ScanAgrees(fname, body);
    StoreAgrees(fname, Scan(fname, body), Blocks.Run(fname, body));
  }

  /**
    The block list partitions the stream without its label markers into
    basic blocks; without ambiguous labels the dictionary holds exactly
    the listed blocks, in the same order, under distinct ids.
   */
  lemma FormBlocksPartition(body: seq<Instr>, fname: string)
    ensures Flatten(FormBlocks(body, fname).blocks) == RemoveLabels(body)
    ensures forall i :: 0 <= i < |FormBlocks(body, fname).blocks| ==> Blocks.IsBasicBlock(FormBlocks(body, fname).blocks[i])
    ensures Blocks.UnambiguousLabels(body) ==>
              DistinctKeys(FormBlocks(body, fname).labelMap) &&
              Values(FormBlocks(body, fname).labelMap) == FormBlocks(body, fname).blocks
  {
    var t := Blocks.Segments(body, fname);
    FormBlocksAgree(body, fname);
    Blocks.FormBlocksPartition(body, fname);
    if Blocks.UnambiguousLabels(body) {
      Blocks.FinishOpeners(fname, body);
      Blocks.NamedDistinct(fname, t, 1);
      PutAllDistinct(Blocks.Named(fname, t, 1));
      Blocks.NamedValues(fname, t, 1);
    }
  }

  // ---------------------------------------------------------------------
  // Well-formedness of the result
  // ---------------------------------------------------------------------

  /** Every block stored in the dictionary is non-empty. */
  predicate NonEmptyBlocks(lm: ODict<string, seq<Instr>>) {
    forall k :: k in Keys(lm) ==> |GetOr(lm, k, [])| > 0
  }

  predicate WellFormed(st: ScanState) {
    && DistinctKeys(st.labelMap)
    && DistinctKeys(st.labelToBlockId)
    && Blocks.LabelsResolve(st.labelMap, st.labelToBlockId)
    && NonEmptyBlocks(st.labelMap)
  }

  lemma StoreWellFormed(fname: string, st: ScanState)
    requires WellFormed(st)
    ensures WellFormed(Store(fname, st))
  {
    if |st.current| > 0 {
      var st' := Store(fname, st);
      forall l | l in Keys(st'.labelToBlockId) ensures GetOr(st'.labelToBlockId, l, "") in Keys(st'.labelMap) {
        if st.currentLabel.None? || l != st.currentLabel.value {
          assert l in Keys(st.labelToBlockId);
        }
      }
    }
  }

  lemma {:induction false} ScanWellFormed(fname: string, p: seq<Instr>)
    ensures WellFormed(Scan(fname, p))
    decreases |p|
  {
    if |p| > 0 {
      var x := p[|p| - 1];
      var s := Scan(fname, p[..|p| - 1]);
      ScanWellFormed(fname, p[..|p| - 1]);
      var s1 := if !IsLabel(x) then s.(current := s.current + [x]) else s;
      StoreWellFormed(fname, s1);
    }
  }

  /**
    The dictionaries `form_blocks` returns are well formed, every recorded
    label leads to a block, and no block is empty, so the unguarded
    `block[-1]` of this script's `form_cfg` cannot fail on them.
   */
  lemma FormBlocksWellFormed(body: seq<Instr>, fname: string)
    ensures DistinctKeys(FormBlocks(body, fname).labelMap)
    ensures Blocks.LabelsResolve(FormBlocks(body, fname).labelMap, FormBlocks(body, fname).labelToBlockId)
    ensures forall i :: 0 <= i < |FormBlocks(body, fname).labelMap| ==> |FormBlocks(body, fname).labelMap[i].1| > 0
  {
    ScanWellFormed(fname, body);
    StoreWellFormed(fname, Scan(fname, body));
    var lm := FormBlocks(body, fname).labelMap;
    forall i | 0 <= i < |lm| ensures |lm[i].1| > 0 {
      GetAt(lm, i);
      assert lm[i].0 in Keys(lm) by { assert Keys(lm)[i] == lm[i].0; }
    }
  }

  // ---------------------------------------------------------------------
  // form_cfg of my-cfg.py
  // ---------------------------------------------------------------------

  /** `form_cfg`: the edges are added to whatever the dictionaries already hold. */
  function FormCfg(b: Info): Result<Info, Cfg.CfgError> {
    match Cfg.BuildCfg(b.labelMap, b.labelToBlockId, b.successors, b.predecessors, false)
    case Err(e) => Err(e)
    case Ok((s, p)) => Ok(b.(successors := s, predecessors := p))
  }

  lemma {:induction false} SuccessorListGuard(lm: ODict<string, seq<Instr>>, l2b: ODict<string, string>, n: nat)
    requires n <= |lm|
    requires forall i :: 0 <= i < n ==> |lm[i].1| > 0
    ensures Cfg.SuccessorList(lm, l2b, false, n) == Cfg.SuccessorList(lm, l2b, true, n)
    decreases n
  {
    if n > 0 {
      SuccessorListGuard(lm, l2b, n - 1);
      BlockTargetsGuard(lm, l2b, n - 1);
    }
  }

  lemma BlockTargetsGuard(lm: ODict<string, seq<Instr>>, l2b: ODict<string, string>, i: nat)
    requires i < |lm| && |lm[i].1| > 0
    ensures Cfg.BlockTargets(lm, l2b, i, false) == Cfg.BlockTargets(lm, l2b, i, true)
  {
  }

  /**
    On dictionaries without empty blocks and with empty successor and
    predecessor dictionaries, this `form_cfg` computes exactly what the
    one of briltool/cfg.py computes.  An empty block is the only case in
    which the two successor rules differ: indexing its last instruction
    fails, so the first empty block makes `form_cfg` fail.
   */
  lemma FreshCfgAgrees(b: Info)
    requires b.successors == [] && b.predecessors == []
    ensures (forall i :: 0 <= i < |b.labelMap| ==> |b.labelMap[i].1| > 0) ==>
              Cfg.BuildCfg(b.labelMap, b.labelToBlockId, [], [], false) == Cfg.BuildCfg(b.labelMap, b.labelToBlockId, [], [], true)
    ensures |b.labelMap| > 0 && |b.labelMap[0].1| == 0 ==> FormCfg(b) == Err(Cfg.EmptyBlock(b.labelMap[0].0))
    ensures forall k :: 0 <= k < |b.labelMap| && Cfg.SuccessorList(b.labelMap, b.labelToBlockId, false, k).Ok? &&
                        |b.labelMap[k].1| == 0 ==>
              FormCfg(b) == Err(Cfg.EmptyBlock(b.labelMap[k].0))
  {
    if forall i :: 0 <= i < |b.labelMap| ==> |b.labelMap[i].1| > 0 {
      SuccessorListGuard(b.labelMap, b.labelToBlockId, |b.labelMap|);
    }
    forall k | 0 <= k < |b.labelMap| && Cfg.SuccessorList(b.labelMap, b.labelToBlockId, false, k).Ok? &&
               |b.labelMap[k].1| == 0
      ensures FormCfg(b) == Err(Cfg.EmptyBlock(b.labelMap[k].0))
    {
      EmptyBlockFails(b.labelMap, b.labelToBlockId, k, |b.labelMap|);
    }
    if |b.labelMap| > 0 && |b.labelMap[0].1| == 0 {
      EmptyBlockFails(b.labelMap, b.labelToBlockId, 0, |b.labelMap|);
    }
  }

  /** The first empty block, reached with every earlier block processed, ends the successor pass with its error. */
  lemma {:induction false} EmptyBlockFails(lm: ODict<string, seq<Instr>>, l2b: ODict<string, string>, k: nat, n: nat)
    requires k < n <= |lm|
    requires Cfg.SuccessorList(lm, l2b, false, k).Ok?
    requires |lm[k].1| == 0
    ensures Cfg.SuccessorList(lm, l2b, false, n) == Err(Cfg.EmptyBlock(lm[k].0))
    decreases n
  {
    if n > k + 1 {
      EmptyBlockFails(lm, l2b, k, n - 1);
    }
  }

  /** Assigning a key the value it already has changes nothing. */
  lemma PutSame(m: ODict<string, seq<string>>, k: string, v: seq<string>)
    requires Get(m, k) == Some(v)
    ensures Put(m, k, v) == m
  {
    var i := IndexOf(m, k);
    assert m[i] == (k, v);
  }

  lemma {:induction false} AddEdgesStable(s: ODict<string, seq<string>>, p: ODict<string, seq<string>>,
                                          es: seq<(string, seq<string>)>)
    requires forall i :: 0 <= i < |es| ==> Get(s, es[i].0) == Some(es[i].1)
    ensures Cfg.AddEdges(s, p, es).0 == s
    decreases |es|
  {
    if |es| > 0 {
      AddEdgesStable(s, p, es[..|es| - 1]);
      PutSame(s, es[|es| - 1].0, es[|es| - 1].1);
    }
  }

  /**
    Calling this `form_cfg` a second time on its own result keeps the
    successors but appends every predecessor list to itself: each edge is
    recorded twice, because nothing is cleared in between.
   */
  lemma FormCfgTwice(b: Info, c: string)
    requires DistinctKeys(b.labelMap)
    requires b.successors == [] && b.predecessors == []
    requires FormCfg(b).Ok?
    ensures var b1 := FormCfg(b).value;
            && FormCfg(b1).Ok?
            && FormCfg(b1).value.successors == b1.successors
            && GetOr(FormCfg(b1).value.predecessors, c, []) == GetOr(b1.predecessors, c, []) + GetOr(b1.predecessors, c, [])
  {
    var lm, l2b := b.labelMap, b.labelToBlockId;
    var es := Cfg.SuccessorList(lm, l2b, false, |lm|).value;
    Cfg.SuccessorListKeys(lm, l2b, false);
    var p1 := Cfg.FillMissing(Cfg.AddEdges([], [], es).1, Keys(lm));
    BuildCfgOk(lm, l2b, [], [], es);
    BuildCfgOk(lm, l2b, es, p1, es);
    FreshEdges(lm, es);
    SecondEdges(lm, es, p1);
    PredsDouble(lm, es, c);
  }

  /** A second run on the predecessors of a fresh one records every edge again. */
  lemma PredsDouble(lm: ODict<string, seq<Instr>>, es: seq<(string, seq<string>)>, c: string)
    ensures var p1 := Cfg.FillMissing(Cfg.AddEdges([], [], es).1, Keys(lm));
            GetOr(Cfg.FillMissing(Cfg.AddEdges(es, p1, es).1, Keys(lm)), c, []) == GetOr(p1, c, []) + GetOr(p1, c, [])
  {
    var p1 := Cfg.FillMissing(Cfg.AddEdges([], [], es).1, Keys(lm));
    var p2 := Cfg.FillMissing(Cfg.AddEdges(es, p1, es).1, Keys(lm));
    PredecessorsAdd(lm, es, [], [], c);
    NothingInEmpty(c);
    PredecessorsAdd(lm, es, es, p1, c);
    Twice(GetOr<string, seq<string>>([], c, []), GetOr(p1, c, []), GetOr(p2, c, []), Cfg.PredsOf(es, c));
  }

  lemma Twice(x0: seq<string>, x1: seq<string>, x2: seq<string>, q: seq<string>)
    requires x0 == [] && x1 == x0 + q && x2 == x1 + q
    ensures x2 == x1 + x1
  {
    assert x1 == q;
  }

  lemma NothingInEmpty(c: string)
    ensures GetOr<string, seq<string>>([], c, []) == []
  {
    assert c !in Keys<string, seq<string>>([]);
  }

  lemma BuildCfgOk(lm: ODict<string, seq<Instr>>, l2b: ODict<string, string>,
                   s0: ODict<string, seq<string>>, p0: ODict<string, seq<string>>, es: seq<(string, seq<string>)>)
    requires Cfg.SuccessorList(lm, l2b, false, |lm|) == Ok(es)
    ensures Cfg.BuildCfg(lm, l2b, s0, p0, false) ==
            Ok((Cfg.FillMissing(Cfg.AddEdges(s0, p0, es).0, Keys(lm)), Cfg.FillMissing(Cfg.AddEdges(s0, p0, es).1, Keys(lm))))
  {
  }

  /** A fresh run stores the edge list itself as the successor dictionary. */
  lemma FreshEdges(lm: ODict<string, seq<Instr>>, es: seq<(string, seq<string>)>)
    requires DistinctKeys(es) && Keys(es) == Keys(lm)
    ensures Cfg.FillMissing(Cfg.AddEdges([], [], es).0, Keys(lm)) == es
  {
    Cfg.AddEdgesSuccs([], es);
    PutAllDistinct(es);
    Cfg.FillMissingNoop(es, Keys(lm));
  }

  /** Re-adding the same edges to a successor dictionary that holds them changes nothing. */
  lemma SecondEdges(lm: ODict<string, seq<Instr>>, es: seq<(string, seq<string>)>, p: ODict<string, seq<string>>)
    requires DistinctKeys(es) && Keys(es) == Keys(lm)
    ensures Cfg.FillMissing(Cfg.AddEdges(es, p, es).0, Keys(lm)) == es
  {
    forall i | 0 <= i < |es| ensures Get(es, es[i].0) == Some(es[i].1) {
      GetAt(es, i);
    }
    AddEdgesStable(es, p, es);
    Cfg.FillMissingNoop(es, Keys(lm));
  }

  /** Each run appends the edge list's predecessors to what the dictionary held. */
  lemma PredecessorsAdd(lm: ODict<string, seq<Instr>>, es: seq<(string, seq<string>)>,
                        s: ODict<string, seq<string>>, p: ODict<string, seq<string>>, c: string)
    ensures GetOr(Cfg.FillMissing(Cfg.AddEdges(s, p, es).1, Keys(lm)), c, []) == GetOr(p, c, []) + Cfg.PredsOf(es, c)
  {
    Cfg.AddEdgesPreds(s, p, es, c);
    Cfg.FillMissingSpec(Cfg.AddEdges(s, p, es).1, Keys(lm), c);
  }
}
