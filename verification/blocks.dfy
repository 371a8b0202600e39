/**
  Basic-block formation of briltool/cfg.py (`block_id_generator`,
  `form_blocks` and its inner `close_block`).

  The builder walks the instruction stream once, keeping an accumulator
  block and the label that is pending for it.  The loop is modelled as a
  left fold (`Run`) over ever longer prefixes of the stream, so that facts
  about the state after a prefix can be proved by induction on the prefix.
  Besides the Python state, the fold keeps `trace`: the blocks in the order
  `close_block` emitted them, each with the label that opened it.  The
  dictionary `label_map` is a function of the trace (`Named`); the trace
  keeps every emitted block even when a later block id overwrites an
  earlier entry of `label_map`.
 */
module Blocks {
  import opened Common
  import opened OrderedMap
  import opened Ir

  /** `f"{name}::{label}"`, the id of a block opened by a label. */
  function LabelledId(fname: string, l: string): string {
    fname + "::" + l
  }

  /** `f"{name}::b{i}"`, the i-th id handed out by `block_id_generator`. */
  function SyntheticId(fname: string, i: nat): string {
    LabelledId(fname, "b" + Decimal(i))
  }

  /** A label that reads like a synthetic block name, such as `b0` or `b17`. */
  predicate IsSyntheticName(l: string) {
    |l| >= 2 && l[0] == 'b' && IsDigits(l[1..])
  }

  /** A block id determines the label it was formed from. */
  lemma LabelledIdInjective(fname: string, l1: string, l2: string)
    ensures LabelledId(fname, l1) == LabelledId(fname, l2) ==> l1 == l2
  {
    var p := fname + "::";
    assert l1 == LabelledId(fname, l1)[|p|..];
    assert l2 == LabelledId(fname, l2)[|p|..];
  }

  /** A block as `close_block` emits it: the label pending when it was closed, and its instructions. */
  datatype Segment = Segment(opener: Option<string>, instrs: seq<Instr>)

  /** The local state of `form_blocks`, plus the trace of emitted blocks. */
  datatype BuildState = BuildState(
    labelMap: ODict<string, seq<Instr>>,
    labelToBlockId: ODict<string, string>,
    counter: nat,
    current: seq<Instr>,
    currentLabel: Option<string>,
    trace: seq<Segment>
  )

  const Start: BuildState := BuildState([], [], 0, [], None, [])

  /** `close_block`: name and store a non-empty accumulator, then reset it. */
  function CloseBlock(fname: string, st: BuildState): BuildState {
    if |st.current| == 0 then st
    else
      var id := if st.currentLabel.Some? then LabelledId(fname, st.currentLabel.value)
                else SyntheticId(fname, st.counter);
      BuildState(
        Put(st.labelMap, id, st.current),
        if st.currentLabel.Some? then Put(st.labelToBlockId, st.currentLabel.value, id)
        else st.labelToBlockId,
        if st.currentLabel.Some? then st.counter else st.counter + 1,
        [],
        None,
        st.trace + [Segment(st.currentLabel, st.current)])
  }

  /** One iteration of the loop over `body`. */
  function Step(fname: string, st: BuildState, x: Instr): BuildState {
    if IsLabel(x) then
      CloseBlock(fname, st).(currentLabel := x.labelName)
    else
      var st' := st.(current := st.current + [x]);
      if IsTerminator(x) then CloseBlock(fname, st') else st'
  }

  /** The state after the loop has consumed `body`. */
  function Run(fname: string, body: seq<Instr>): BuildState
    decreases |body|
  {
    if |body| == 0 then Start
    else Step(fname, Run(fname, body[..|body| - 1]), body[|body| - 1])
  }

  /** The loop followed by the trailing `close_block()`. */
  function Finish(fname: string, body: seq<Instr>): BuildState {
    CloseBlock(fname, Run(fname, body))
  }

  /** `form_blocks(body, name)`. */
  function FormBlocks(body: seq<Instr>, fname: string): BlockInfo {
    var st := Finish(fname, body);
    BlockInfo(fname, st.labelMap, st.labelToBlockId, [], [], [])
  }

  /** The blocks `form_blocks` emits, in emission order. */
  function Segments(body: seq<Instr>, fname: string): seq<Segment> {
    Finish(fname, body).trace
  }

  // ---------------------------------------------------------------------
  // Vocabulary about traces and streams
  // ---------------------------------------------------------------------

  function BlockInstrs(t: seq<Segment>): (bs: seq<seq<Instr>>)
    ensures |bs| == |t|
    ensures forall i :: 0 <= i < |t| ==> bs[i] == t[i].instrs
  {
    seq(|t|, i requires 0 <= i < |t| => t[i].instrs)
  }

  /** How many emitted blocks were opened without a label. */
  function CountSynthetic(t: seq<Segment>): nat
    decreases |t|
  {
    if |t| == 0 then 0
    else CountSynthetic(t[..|t| - 1]) + (if t[|t| - 1].opener.None? then 1 else 0)
  }

  /** The id a block receives when `k` synthetic ids were handed out before it. */
  function NameOf(fname: string, s: Segment, k: nat): string {
    if s.opener.Some? then LabelledId(fname, s.opener.value) else SyntheticId(fname, k)
  }

  /**
    The (id, block) assignments made while emitting `t`, when the generator's
    first id is number `base`.
   */
  function Named(fname: string, t: seq<Segment>, base: nat): seq<(string, seq<Instr>)>
    decreases |t|
  {
    if |t| == 0 then []
    else
      var init := t[..|t| - 1];
      Named(fname, init, base) + [(NameOf(fname, t[|t| - 1], base + CountSynthetic(init)), t[|t| - 1].instrs)]
  }

  /** The `label_to_block_id[L] = id` assignments made while emitting `t`. */
  function LabelPairs(fname: string, t: seq<Segment>): seq<(string, string)>
    decreases |t|
  {
    if |t| == 0 then []
    else
      var last := t[|t| - 1];
      LabelPairs(fname, t[..|t| - 1])
      + (if last.opener.Some? then [(last.opener.value, LabelledId(fname, last.opener.value))] else [])
  }

  /** Names of the label markers of a stream, in order. */
  function LabelNames(s: seq<Instr>): seq<string>
    decreases |s|
  {
    if |s| == 0 then []
    else LabelNames(s[..|s| - 1]) + (if IsLabel(s[|s| - 1]) then [s[|s| - 1].labelName.value] else [])
  }

  /**
    A basic block: non-empty, free of label markers, and with a terminator
    at most in its last position.
   */
  predicate IsBasicBlock(b: seq<Instr>) {
    && |b| > 0
    && (forall k :: 0 <= k < |b| ==> !IsLabel(b[k]))
    && (forall k :: 0 <= k < |b| - 1 ==> !IsTerminator(b[k]))
  }

  /** Distinct emitted blocks were opened by distinct labels. */
  predicate OpenersDistinct(t: seq<Segment>) {
    forall i, j :: 0 <= i < j < |t| && t[i].opener.Some? && t[j].opener.Some? ==>
      t[i].opener != t[j].opener
  }

  // ---------------------------------------------------------------------
  // Invariants of the loop, by induction over the consumed prefix
  // ---------------------------------------------------------------------

  /** The emitted blocks followed by the accumulator are the prefix without its labels. */
  lemma {:induction false} RunFlatten(fname: string, p: seq<Instr>)
    ensures Flatten(BlockInstrs(Run(fname, p).trace)) + Run(fname, p).current == RemoveLabels(p)
    decreases |p|
  {
    if |p| > 0 {
      var init := p[..|p| - 1];
      var x := p[|p| - 1];
      var st := Run(fname, init);
      RunFlatten(fname, init);
      var st1 := if IsLabel(x) then st else st.(current := st.current + [x]);
      assert Flatten(BlockInstrs(st1.trace)) + st1.current == RemoveLabels(p);
      CloseFlatten(fname, st1);
    }
  }

  lemma CloseFlatten(fname: string, st: BuildState)
    ensures Flatten(BlockInstrs(CloseBlock(fname, st).trace)) + CloseBlock(fname, st).current
         == Flatten(BlockInstrs(st.trace)) + st.current
  {
    if |st.current| > 0 {
      var t' := st.trace + [Segment(st.currentLabel, st.current)];
      assert BlockInstrs(t')[..|t'| - 1] == BlockInstrs(st.trace);
    }
  }

  /** Every emitted block is a basic block; the accumulator has no label and no terminator. */
  lemma {:induction false} RunShape(fname: string, p: seq<Instr>)
    ensures forall i :: 0 <= i < |Run(fname, p).trace| ==> IsBasicBlock(Run(fname, p).trace[i].instrs)
    ensures forall k :: 0 <= k < |Run(fname, p).current| ==>
              !IsLabel(Run(fname, p).current[k]) && !IsTerminator(Run(fname, p).current[k])
    decreases |p|
  {
    if |p| > 0 {
      RunShape(fname, p[..|p| - 1]);
    }
  }

  /** The dictionaries and the generator are exactly what the trace implies. */
  lemma {:induction false} RunNaming(fname: string, p: seq<Instr>)
    ensures Run(fname, p).labelMap == PutAll([], Named(fname, Run(fname, p).trace, 0))
    ensures Run(fname, p).labelToBlockId == PutAll([], LabelPairs(fname, Run(fname, p).trace))
    ensures Run(fname, p).counter == CountSynthetic(Run(fname, p).trace)
    decreases |p|
  {
    if |p| > 0 {
      var init := p[..|p| - 1];
      var x := p[|p| - 1];
      RunNaming(fname, init);
      var st := Run(fname, init);
      var st1 := if IsLabel(x) then st else st.(current := st.current + [x]);
      CloseNaming(fname, st1);
    }
  }

  lemma CloseNaming(fname: string, st: BuildState)
    requires st.labelMap == PutAll([], Named(fname, st.trace, 0))
    requires st.labelToBlockId == PutAll([], LabelPairs(fname, st.trace))
    requires st.counter == CountSynthetic(st.trace)
    ensures CloseBlock(fname, st).labelMap == PutAll([], Named(fname, CloseBlock(fname, st).trace, 0))
    ensures CloseBlock(fname, st).labelToBlockId == PutAll([], LabelPairs(fname, CloseBlock(fname, st).trace))
    ensures CloseBlock(fname, st).counter == CountSynthetic(CloseBlock(fname, st).trace)
  {
    if |st.current| > 0 {
      var seg := Segment(st.currentLabel, st.current);
      CloseLabelMap(fname, st.trace, seg, 0, st.counter);
      CloseLabelPairs(fname, st.trace, seg);
      CountSnoc(st.trace, seg);
    }
  }

  lemma CountSnoc(t: seq<Segment>, seg: Segment)
    ensures CountSynthetic(t + [seg]) == CountSynthetic(t) + (if seg.opener.None? then 1 else 0)
  {
    assert (t + [seg])[..|t|] == t;
  }

  lemma PutAllSnoc<K(!new), V>(m: ODict<K, V>, xs: seq<(K, V)>, x: (K, V))
    ensures PutAll(m, xs + [x]) == Put(PutAll(m, xs), x.0, x.1)
  {
    assert (xs + [x])[..|xs|] == xs;
  }

  lemma CloseLabelMap(fname: string, t: seq<Segment>, seg: Segment, base: nat, k: nat)
    requires k == base + CountSynthetic(t)
    ensures Put(PutAll([], Named(fname, t, base)), NameOf(fname, seg, k), seg.instrs)
            == PutAll([], Named(fname, t + [seg], base))
  {
    NamedSnoc(fname, t, seg, base);
    var id := NameOf(fname, seg, k);
    assert id == NameOf(fname, seg, base + CountSynthetic(t));
    PutAllSnoc([], Named(fname, t, base), (id, seg.instrs));
  }

  lemma NamedSnoc(fname: string, t: seq<Segment>, seg: Segment, base: nat)
    ensures Named(fname, t + [seg], base) == Named(fname, t, base) + [(NameOf(fname, seg, base + CountSynthetic(t)), seg.instrs)]
  {
    assert (t + [seg])[..|t|] == t;
  }

  lemma BlockInstrsSnoc(t: seq<Segment>, seg: Segment)
    ensures BlockInstrs(t + [seg]) == BlockInstrs(t) + [seg.instrs]
  {
  }

  lemma CloseLabelPairs(fname: string, t: seq<Segment>, seg: Segment)
    ensures seg.opener.Some? ==>
              Put(PutAll([], LabelPairs(fname, t)), seg.opener.value, LabelledId(fname, seg.opener.value))
              == PutAll([], LabelPairs(fname, t + [seg]))
    ensures seg.opener.None? ==> PutAll([], LabelPairs(fname, t)) == PutAll([], LabelPairs(fname, t + [seg]))
  {
    assert (t + [seg])[..|t|] == t;
    if seg.opener.Some? {
      var pair := (seg.opener.value, LabelledId(fname, seg.opener.value));
      assert LabelPairs(fname, t + [seg]) == LabelPairs(fname, t) + [pair];
      PutAllSnoc([], LabelPairs(fname, t), pair);
    } else {
      assert LabelPairs(fname, t + [seg]) == LabelPairs(fname, t);
    }
  }

  /**
    Every emitted block's opening label, and the pending label, is one of
    `names`; openers are distinct and differ from the pending label.
   */
  predicate OpenersFrom(st: BuildState, names: seq<string>) {
    && OpenersDistinct(st.trace)
    && (forall i :: 0 <= i < |st.trace| && st.trace[i].opener.Some? ==>
          st.trace[i].opener.value in names && st.trace[i].opener != st.currentLabel)
    && (st.currentLabel.Some? ==> st.currentLabel.value in names)
  }

  lemma CloseKeepsOpeners(fname: string, st: BuildState, names: seq<string>)
    requires OpenersFrom(st, names)
    ensures OpenersFrom(CloseBlock(fname, st), names)
  {
  }

  lemma LabelNamesSnoc(p: seq<Instr>, x: Instr)
    ensures LabelNames(p + [x]) == LabelNames(p) + (if IsLabel(x) then [x.labelName.value] else [])
  {
    assert (p + [x])[..|p|] == p;
  }

  lemma OpenersStep(fname: string, st: BuildState, init: seq<Instr>, x: Instr)
    requires Distinct(LabelNames(init + [x]))
    requires OpenersFrom(st, LabelNames(init))
    ensures OpenersFrom(Step(fname, st, x), LabelNames(init + [x]))
  {
    LabelNamesSnoc(init, x);
    var names := LabelNames(init + [x]);
    if IsLabel(x) {
      var c := CloseBlock(fname, st);
      CloseKeepsOpeners(fname, st, LabelNames(init));
      forall k | 0 <= k < |LabelNames(init)| ensures LabelNames(init)[k] != x.labelName.value {
        assert names[k] != names[|names| - 1];
      }
      assert OpenersFrom(c.(currentLabel := x.labelName), names);
    } else {
      var st1 := st.(current := st.current + [x]);
      assert OpenersFrom(st1, names);
      CloseKeepsOpeners(fname, st1, names);
    }
  }

  /** Pending and emitted labels come from the prefix's markers, each at most once. */
  lemma {:induction false} RunOpeners(fname: string, p: seq<Instr>)
    requires Distinct(LabelNames(p))
    ensures OpenersFrom(Run(fname, p), LabelNames(p))
    decreases |p|
  {
    if |p| > 0 {
      var init := p[..|p| - 1];
      var x := p[|p| - 1];
      assert init + [x] == p;
      LabelNamesSnoc(init, x);
      assert Distinct(LabelNames(init)) by {
        assert LabelNames(init) == LabelNames(p)[..|LabelNames(init)|];
      }
      RunOpeners(fname, init);
      OpenersStep(fname, Run(fname, init), init, x);
    }
  }

  /** Every block id recorded for a label is the id of a block of `label_map`. */
  predicate LabelsResolve(lm: ODict<string, seq<Instr>>, l2b: ODict<string, string>) {
    forall l :: l in Keys(l2b) ==> GetOr(l2b, l, "") in Keys(lm)
  }

  /** Both dictionaries stay well formed, and every recorded label leads to a block. */
  lemma {:induction false} RunResolves(fname: string, p: seq<Instr>)
    ensures DistinctKeys(Run(fname, p).labelMap) && DistinctKeys(Run(fname, p).labelToBlockId)
    ensures LabelsResolve(Run(fname, p).labelMap, Run(fname, p).labelToBlockId)
    decreases |p|
  {
    if |p| > 0 {
      var init := p[..|p| - 1];
      var x := p[|p| - 1];
      RunResolves(fname, init);
      var st := Run(fname, init);
      var st1 := if IsLabel(x) then st else st.(current := st.current + [x]);
      CloseResolves(fname, st1);
    }
  }

  lemma CloseResolves(fname: string, st: BuildState)
    requires DistinctKeys(st.labelMap) && DistinctKeys(st.labelToBlockId)
    requires LabelsResolve(st.labelMap, st.labelToBlockId)
    ensures DistinctKeys(CloseBlock(fname, st).labelMap) && DistinctKeys(CloseBlock(fname, st).labelToBlockId)
    ensures LabelsResolve(CloseBlock(fname, st).labelMap, CloseBlock(fname, st).labelToBlockId)
  {
    if |st.current| > 0 && st.currentLabel.Some? {
      var st' := CloseBlock(fname, st);
      forall l | l in Keys(st'.labelToBlockId) ensures GetOr(st'.labelToBlockId, l, "") in Keys(st'.labelMap) {
        if l != st.currentLabel.value {
          assert l in Keys(st.labelToBlockId);
        }
      }
    }
  }

  // ---------------------------------------------------------------------
  // Facts about the finished builder
  // ---------------------------------------------------------------------

  lemma FinishFacts(fname: string, body: seq<Instr>)
    ensures Flatten(BlockInstrs(Segments(body, fname))) == RemoveLabels(body)
    ensures forall i :: 0 <= i < |Segments(body, fname)| ==> IsBasicBlock(Segments(body, fname)[i].instrs)
    ensures Finish(fname, body).labelMap == PutAll([], Named(fname, Segments(body, fname), 0))
    ensures Finish(fname, body).labelToBlockId == PutAll([], LabelPairs(fname, Segments(body, fname)))
  {
    FinishShape(fname, body);
    RunNaming(fname, body);
    CloseNaming(fname, Run(fname, body));
  }

  lemma FinishShape(fname: string, body: seq<Instr>)
    ensures Flatten(BlockInstrs(Segments(body, fname))) == RemoveLabels(body)
    ensures forall i :: 0 <= i < |Segments(body, fname)| ==> IsBasicBlock(Segments(body, fname)[i].instrs)
  {
    RunFlatten(fname, body);
    RunShape(fname, body);
    CloseFlatten(fname, Run(fname, body));
  }

  /**
    Concatenating the emitted blocks gives the input stream without its
    label markers, and every emitted block is a basic block: non-empty,
    label-free, with jmp/br/ret only in last position.
   */
  lemma FormBlocksPartition(body: seq<Instr>, fname: string)
    ensures Flatten(BlockInstrs(Segments(body, fname))) == RemoveLabels(body)
    ensures forall i :: 0 <= i < |Segments(body, fname)| ==> IsBasicBlock(Segments(body, fname)[i].instrs)
  {
    FinishFacts(fname, body);
  }

  /**
    Block naming: `label_map` and `label_to_block_id` receive, in emission
    order, the id `name::L` for a block opened by label L (recording L) and
    `name::b<k>` for the k-th block opened without a label, counting from 0.
   */
  lemma FormBlocksNaming(body: seq<Instr>, fname: string)
    ensures FormBlocks(body, fname).labelMap == PutAll([], Named(fname, Segments(body, fname), 0))
    ensures FormBlocks(body, fname).labelToBlockId == PutAll([], LabelPairs(fname, Segments(body, fname)))
  {
    FinishFacts(fname, body);
  }

  /** An empty body has no blocks. */
  lemma FormBlocksEmpty(fname: string)
    ensures FormBlocks([], fname).labelMap == []
    ensures FormBlocks([], fname).labelToBlockId == []
  {
  }

  // ---------------------------------------------------------------------
  // When no block id collides, nothing is overwritten
  // ---------------------------------------------------------------------

  lemma {:induction false} CountSyntheticMono(t: seq<Segment>, a: nat, b: nat)
    requires a <= b <= |t|
    ensures CountSynthetic(t[..a]) <= CountSynthetic(t[..b])
    decreases b - a
  {
    if a < b {
      CountSyntheticMono(t, a, b - 1);
      assert t[..b][..b - 1] == t[..b - 1];
    }
  }

  lemma {:induction false} NamedAt(fname: string, t: seq<Segment>, base: nat, i: nat)
    requires i < |t|
    ensures |Named(fname, t, base)| == |t|
    ensures Named(fname, t, base)[i] == (NameOf(fname, t[i], base + CountSynthetic(t[..i])), t[i].instrs)
    decreases |t|
  {
    var init := t[..|t| - 1];
    if i < |t| - 1 {
      NamedAt(fname, init, base, i);
      assert init[..i] == t[..i];
    } else if |t| > 1 {
      NamedAt(fname, init, base, 0);
    }
  }

  /** Two blocks get different ids unless they share a label or a generator number. */
  lemma NamesDiffer(fname: string, s1: Segment, k1: nat, s2: Segment, k2: nat)
    requires s1.opener.Some? && s2.opener.Some? ==> s1.opener != s2.opener
    requires s1.opener.None? && s2.opener.None? ==> k1 != k2
    requires s1.opener.Some? ==> !IsSyntheticName(s1.opener.value)
    requires s2.opener.Some? ==> !IsSyntheticName(s2.opener.value)
    ensures NameOf(fname, s1, k1) != NameOf(fname, s2, k2)
  {
    var l1 := if s1.opener.Some? then s1.opener.value else "b" + Decimal(k1);
    var l2 := if s2.opener.Some? then s2.opener.value else "b" + Decimal(k2);
    DecimalRoundTrip(k1);
    DecimalRoundTrip(k2);
    DecimalInjective(k1, k2);
    if s1.opener.None? {
      assert l1[1..] == Decimal(k1);
    }
    if s2.opener.None? {
      assert l2[1..] == Decimal(k2);
    }
    assert l1 != l2;
    LabelledIdInjective(fname, l1, l2);
  }

  /** Distinct labels that do not read like synthetic names give distinct block ids. */
  lemma NamedDistinct(fname: string, t: seq<Segment>, base: nat)
    requires OpenersDistinct(t)
    requires forall i :: 0 <= i < |t| && t[i].opener.Some? ==> !IsSyntheticName(t[i].opener.value)
    ensures DistinctKeys(Named(fname, t, base))
  {
    var n := Named(fname, t, base);
    if |t| > 0 {
      NamedAt(fname, t, base, 0);
    }
    forall i, j | 0 <= i < j < |n| ensures n[i].0 != n[j].0 {
      NamedPairDiffers(fname, t, base, i, j);
    }
  }

  lemma NamedPairDiffers(fname: string, t: seq<Segment>, base: nat, i: nat, j: nat)
    requires OpenersDistinct(t)
    requires forall i :: 0 <= i < |t| && t[i].opener.Some? ==> !IsSyntheticName(t[i].opener.value)
    requires i < j < |t|
    ensures |Named(fname, t, base)| == |t|
    ensures Named(fname, t, base)[i].0 != Named(fname, t, base)[j].0
  {
    NamedAt(fname, t, base, i);
    NamedAt(fname, t, base, j);
    var ki := base + CountSynthetic(t[..i]);
    var kj := base + CountSynthetic(t[..j]);
    var si, sj := t[i], t[j];
    assert si.opener.None? && sj.opener.None? ==> ki < kj by {
      CountSyntheticMono(t, i + 1, j);
      assert t[..i + 1][..i] == t[..i];
    }
    NamesDiffer(fname, si, ki, sj, kj);
  }

  /** The labels of a stream's markers are distinct and none reads like a synthetic id. */
  predicate UnambiguousLabels(body: seq<Instr>) {
    && Distinct(LabelNames(body))
    && forall i :: 0 <= i < |LabelNames(body)| ==> !IsSyntheticName(LabelNames(body)[i])
  }

  lemma FinishOpeners(fname: string, body: seq<Instr>)
    requires Distinct(LabelNames(body))
    ensures OpenersDistinct(Segments(body, fname))
    ensures forall i :: 0 <= i < |Segments(body, fname)| && Segments(body, fname)[i].opener.Some? ==>
              Segments(body, fname)[i].opener.value in LabelNames(body)
  {
    RunOpeners(fname, body);
    CloseKeepsOpeners(fname, Run(fname, body), LabelNames(body));
  }

  /**
    Without id collisions, `label_map` holds every emitted block under its
    own id, in emission order, so its values concatenate to the stream
    without label markers.
   */
  lemma FormBlocksNoCollision(body: seq<Instr>, fname: string)
    requires UnambiguousLabels(body)
    ensures FormBlocks(body, fname).labelMap == Named(fname, Segments(body, fname), 0)
    ensures DistinctKeys(FormBlocks(body, fname).labelMap)
    ensures Values(FormBlocks(body, fname).labelMap) == BlockInstrs(Segments(body, fname))
    ensures Flatten(Values(FormBlocks(body, fname).labelMap)) == RemoveLabels(body)
  {
    var t := Segments(body, fname);
    FinishFacts(fname, body);
    FinishOpeners(fname, body);
    NamedDistinct(fname, t, 0);
    PutAllDistinct(Named(fname, t, 0));
    NamedValues(fname, t, 0);
  }

  /** Whatever the ids, the assignments carry the emitted blocks in order. */
  lemma NamedValues(fname: string, t: seq<Segment>, base: nat)
    ensures Values(Named(fname, t, base)) == BlockInstrs(t)
  {
    var n := Named(fname, t, base);
    if |t| > 0 {
      NamedAt(fname, t, base, 0);
    }
    forall i | 0 <= i < |t| ensures Values(n)[i] == BlockInstrs(t)[i] {
      NamedAt(fname, t, base, i);
    }
  }

  // ---------------------------------------------------------------------
  // Which labels survive: a label opens a block exactly when a non-label
  // instruction follows it directly
  // ---------------------------------------------------------------------

  /** Labels of markers that are directly followed by a non-label instruction. */
  function OpeningLabels(s: seq<Instr>): seq<string>
    decreases |s|
  {
    if |s| < 2 then []
    else
      OpeningLabels(s[..|s| - 1])
      + (if IsLabel(s[|s| - 2]) && !IsLabel(s[|s| - 1]) then [s[|s| - 2].labelName.value] else [])
  }

  /** The labels that opened the emitted blocks, in order. */
  function Openers(t: seq<Segment>): seq<string>
    decreases |t|
  {
    if |t| == 0 then []
    else Openers(t[..|t| - 1]) + (if t[|t| - 1].opener.Some? then [t[|t| - 1].opener.value] else [])
  }

  /** The label pending for a non-empty accumulator, if any. */
  function PendingOpener(st: BuildState): seq<string> {
    if |st.current| > 0 && st.currentLabel.Some? then [st.currentLabel.value] else []
  }

  /** A label marker just consumed is pending, with nothing accumulated after it, and only then. */
  lemma {:induction false} RunPending(fname: string, p: seq<Instr>)
    ensures |p| > 0 && IsLabel(p[|p| - 1]) ==>
              Run(fname, p).current == [] && Run(fname, p).currentLabel == p[|p| - 1].labelName
    ensures Run(fname, p).currentLabel.Some? && Run(fname, p).current == [] ==>
              |p| > 0 && IsLabel(p[|p| - 1])
    decreases |p|
  {
    if |p| > 0 {
      RunPending(fname, p[..|p| - 1]);
    }
  }

  lemma OpeningLabelsSnoc(p: seq<Instr>, x: Instr)
    ensures OpeningLabels(p + [x]) == OpeningLabels(p)
      + (if |p| > 0 && IsLabel(p[|p| - 1]) && !IsLabel(x) then [p[|p| - 1].labelName.value] else [])
  {
    assert (p + [x])[..|p|] == p;
  }

  lemma CloseOpeners(fname: string, st: BuildState)
    ensures CloseBlock(fname, st).current == []
    ensures Openers(CloseBlock(fname, st).trace) == Openers(st.trace) + PendingOpener(st)
  {
    if |st.current| > 0 {
      var t := st.trace + [Segment(st.currentLabel, st.current)];
      assert t[..|t| - 1] == st.trace;
    }
  }

  lemma {:induction false} RunOpening(fname: string, p: seq<Instr>)
    ensures Openers(Run(fname, p).trace) + PendingOpener(Run(fname, p)) == OpeningLabels(p)
    decreases |p|
  {
    if |p| > 0 {
      var init := p[..|p| - 1];
      var x := p[|p| - 1];
      assert init + [x] == p;
      RunOpening(fname, init);
      RunPending(fname, init);
      OpeningStep(fname, Run(fname, init), init, x);
    }
  }

  lemma OpeningStep(fname: string, st: BuildState, init: seq<Instr>, x: Instr)
    requires Openers(st.trace) + PendingOpener(st) == OpeningLabels(init)
    requires |init| > 0 && IsLabel(init[|init| - 1]) ==>
               st.current == [] && st.currentLabel == init[|init| - 1].labelName
    requires st.currentLabel.Some? && st.current == [] ==> |init| > 0 && IsLabel(init[|init| - 1])
    ensures Openers(Step(fname, st, x).trace) + PendingOpener(Step(fname, st, x)) == OpeningLabels(init + [x])
  {
    if IsLabel(x) {
      OpeningLabelsSnoc(init, x);
      CloseOpeners(fname, st);
    } else {
      var st1 := st.(current := st.current + [x]);
      OpeningInstr(st, init, x);
      if IsTerminator(x) {
        CloseOpeners(fname, st1);
      }
    }
  }

  /** Appending an instruction to the accumulator makes its pending label an opener. */
  lemma OpeningInstr(st: BuildState, init: seq<Instr>, x: Instr)
    requires !IsLabel(x)
    requires Openers(st.trace) + PendingOpener(st) == OpeningLabels(init)
    requires |init| > 0 && IsLabel(init[|init| - 1]) ==>
               st.current == [] && st.currentLabel == init[|init| - 1].labelName
    requires st.currentLabel.Some? && st.current == [] ==> |init| > 0 && IsLabel(init[|init| - 1])
    ensures Openers(st.trace) + PendingOpener(st.(current := st.current + [x])) == OpeningLabels(init + [x])
  {
    OpeningLabelsSnoc(init, x);
    var st1 := st.(current := st.current + [x]);
    if |st.current| > 0 {
      assert PendingOpener(st1) == PendingOpener(st);
    } else if st.currentLabel.Some? {
      assert PendingOpener(st1) == [init[|init| - 1].labelName.value];
    } else {
      assert PendingOpener(st1) == [];
    }
  }

  /** The labels that opened the emitted blocks are the labels directly followed by an instruction. */
  lemma FinishOpening(fname: string, body: seq<Instr>)
    ensures Openers(Segments(body, fname)) == OpeningLabels(body)
  {
    RunOpening(fname, body);
    CloseOpeners(fname, Run(fname, body));
  }

  /**
    A label opens a block, and receives a `label_to_block_id` entry, exactly
    when a non-label instruction directly follows it; that entry is always
    `name::L`.  So a label followed by another label, or ending the body,
    yields neither a block nor an entry (unless the same label occurs again
    elsewhere).
   */
  lemma FormBlocksLabelEntries(body: seq<Instr>, fname: string)
    ensures Openers(Segments(body, fname)) == OpeningLabels(body)
    ensures forall l :: l in Keys(FormBlocks(body, fname).labelToBlockId) <==> l in OpeningLabels(body)
    ensures forall l :: l in Keys(FormBlocks(body, fname).labelToBlockId) ==>
              Get(FormBlocks(body, fname).labelToBlockId, l) == Some(LabelledId(fname, l))
  {
    FinishOpening(fname, body);
    FinishFacts(fname, body);
    var t := Segments(body, fname);
    LabelPairsShape(fname, t);
    PutAllKeys(LabelPairs(fname, t));
    PutAllUniform(fname, LabelPairs(fname, t));
  }

  lemma {:induction false} LabelPairsShape(fname: string, t: seq<Segment>)
    ensures Keys(LabelPairs(fname, t)) == Openers(t)
    ensures forall i :: 0 <= i < |LabelPairs(fname, t)| ==>
              LabelPairs(fname, t)[i].1 == LabelledId(fname, LabelPairs(fname, t)[i].0)
    decreases |t|
  {
    if |t| > 0 {
      LabelPairsShape(fname, t[..|t| - 1]);
    }
  }

  lemma {:induction false} PutAllKeys<V>(xs: seq<(string, V)>)
    ensures forall k :: k in Keys(PutAll([], xs)) <==> k in Keys(xs)
    decreases |xs|
  {
    if |xs| > 0 {
      var init := xs[..|xs| - 1];
      PutAllKeys(init);
      assert Keys(xs) == Keys(init) + [xs[|xs| - 1].0];
    }
  }

  /** Assignments that always store `name::L` under L leave only such entries. */
  lemma {:induction false} PutAllUniform(fname: string, xs: seq<(string, string)>)
    requires forall i :: 0 <= i < |xs| ==> xs[i].1 == LabelledId(fname, xs[i].0)
    ensures forall l :: l in Keys(PutAll([], xs)) ==> Get(PutAll([], xs), l) == Some(LabelledId(fname, l))
    decreases |xs|
  {
    if |xs| > 0 {
      PutAllUniform(fname, xs[..|xs| - 1]);
    }
  }

  // ---------------------------------------------------------------------
  // Emitting blocks back as a stream
  // ---------------------------------------------------------------------

  /** `{"label": L}` before a block opened by L, nothing before a synthetic one. */
  function OpenerMarker(s: Segment): seq<Instr> {
    if s.opener.Some? then [LabelMarker(s.opener.value)] else []
  }

  /** The emitted blocks, each preceded by the marker of the label that opened it. */
  function Emit(t: seq<Segment>): seq<Instr>
    decreases |t|
  {
    if |t| == 0 then [] else Emit(t[..|t| - 1]) + OpenerMarker(t[|t| - 1]) + t[|t| - 1].instrs
  }

  /** No label marker is directly followed by another one, and none ends the stream. */
  predicate NoDanglingLabels(s: seq<Instr>) {
    && (forall i :: 0 <= i < |s| - 1 && IsLabel(s[i]) ==> !IsLabel(s[i + 1]))
    && (|s| > 0 ==> !IsLabel(s[|s| - 1]))
  }

  /** Every label marker carries nothing but its name. */
  predicate PlainMarkers(s: seq<Instr>) {
    forall i :: 0 <= i < |s| && IsLabel(s[i]) ==> s[i] == LabelMarker(s[i].labelName.value)
  }

  function PendingMarker(st: BuildState): seq<Instr> {
    if st.currentLabel.Some? then [LabelMarker(st.currentLabel.value)] else []
  }

  lemma CloseEmit(fname: string, st: BuildState)
    ensures CloseBlock(fname, st).current == []
    ensures |st.current| > 0 ==> CloseBlock(fname, st).currentLabel.None?
    ensures Emit(CloseBlock(fname, st).trace) + PendingMarker(CloseBlock(fname, st)) + CloseBlock(fname, st).current
         == Emit(st.trace) + PendingMarker(st) + st.current
  {
    if |st.current| > 0 {
      var t := st.trace + [Segment(st.currentLabel, st.current)];
      assert t[..|t| - 1] == st.trace;
    }
  }

  lemma EmitStep(fname: string, st: BuildState, init: seq<Instr>, x: Instr)
    requires Emit(st.trace) + PendingMarker(st) + st.current == init
    requires st.currentLabel.Some? && st.current == [] ==> |init| > 0 && IsLabel(init[|init| - 1])
    requires IsLabel(x) ==> x == LabelMarker(x.labelName.value)
    requires IsLabel(x) && |init| > 0 ==> !IsLabel(init[|init| - 1])
    ensures Emit(Step(fname, st, x).trace) + PendingMarker(Step(fname, st, x)) + Step(fname, st, x).current
         == init + [x]
  {
    if IsLabel(x) {
      var c := CloseBlock(fname, st);
      CloseEmit(fname, st);
      assert c.currentLabel.None?;
      assert Emit(c.trace) == init;
    } else {
      var st1 := st.(current := st.current + [x]);
      assert Emit(st1.trace) + PendingMarker(st1) + st1.current == init + [x];
      if IsTerminator(x) {
        CloseEmit(fname, st1);
      }
    }
  }

  lemma {:induction false} RunEmit(fname: string, p: seq<Instr>)
    requires forall i :: 0 <= i < |p| - 1 && IsLabel(p[i]) ==> !IsLabel(p[i + 1])
    requires PlainMarkers(p)
    ensures Emit(Run(fname, p).trace) + PendingMarker(Run(fname, p)) + Run(fname, p).current == p
    decreases |p|
  {
    if |p| > 0 {
      var init := p[..|p| - 1];
      var x := p[|p| - 1];
      assert init + [x] == p;
      assert forall i :: 0 <= i < |init| - 1 && IsLabel(init[i]) ==> !IsLabel(init[i + 1]) by {
        forall i | 0 <= i < |init| - 1 && IsLabel(init[i]) ensures !IsLabel(init[i + 1]) {
          assert init[i] == p[i] && init[i + 1] == p[i + 1];
        }
      }
      assert PlainMarkers(init) by {
        forall i | 0 <= i < |init| && IsLabel(init[i]) ensures init[i] == LabelMarker(init[i].labelName.value) {
          assert init[i] == p[i];
        }
      }
      RunEmit(fname, init);
      RunPending(fname, init);
      if |init| > 0 {
        assert p[|p| - 2] == init[|init| - 1];
      }
      EmitStep(fname, Run(fname, init), init, x);
    }
  }

  /**
    When every label is followed by an instruction, the emitted blocks with
    their opening labels re-inserted give back the original stream.
   */
  lemma FormBlocksEmit(body: seq<Instr>, fname: string)
    requires NoDanglingLabels(body)
    requires PlainMarkers(body)
    ensures Emit(Segments(body, fname)) == body
  {
    RunEmit(fname, body);
    RunPending(fname, body);
    EmitFinish(fname, Run(fname, body), body);
  }

  lemma EmitFinish(fname: string, st: BuildState, body: seq<Instr>)
    requires Emit(st.trace) + PendingMarker(st) + st.current == body
    requires st.currentLabel.Some? && st.current == [] ==> |body| > 0 && IsLabel(body[|body| - 1])
    requires NoDanglingLabels(body)
    ensures Emit(CloseBlock(fname, st).trace) == body
  {
    CloseEmit(fname, st);
  }

  /**
    The result of `form_blocks` is a well-formed pair of dictionaries in
    which every label's block id is a key of `label_map`, so a jump to any
    recorded label lands on a block.
   */
  lemma FormBlocksResolve(body: seq<Instr>, fname: string)
    ensures DistinctKeys(FormBlocks(body, fname).labelMap)
    ensures DistinctKeys(FormBlocks(body, fname).labelToBlockId)
    ensures LabelsResolve(FormBlocks(body, fname).labelMap, FormBlocks(body, fname).labelToBlockId)
  {
    RunResolves(fname, body);
    CloseResolves(fname, Run(fname, body));
  }
}
