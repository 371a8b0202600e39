/**
  Re-linearisation of a function's blocks (the loop of `output_json_prog`
  in briltool/driver.py): blocks are emitted in the order `label_map`
  stores them, each preceded by a `{label: L}` marker when its block id is
  the image of L in `label_to_block_id`.
 */
module Output {
  import opened Common
  import opened OrderedMap
  import opened Ir
  import Blocks

  /** The entries of a dictionary with key and value exchanged, in order. */
  function Swapped(m: ODict<string, string>): (r: ODict<string, string>)
    ensures |r| == |m|
    ensures forall i :: 0 <= i < |m| ==> r[i] == (m[i].1, m[i].0)
  {
    seq(|m|, i requires 0 <= i < |m| => (m[i].1, m[i].0))
  }

  /** `{block_id: label for label, block_id in l2b.items()}`: a later label for the same block wins. */
  function Invert(l2b: ODict<string, string>): ODict<string, string> {
    PutAll([], Swapped(l2b))
  }

  /** The marker that precedes the block with id `id`, if any. */
  function Marker(inv: ODict<string, string>, id: string): seq<Instr> {
    if id in Keys(inv) then [LabelMarker(GetOr(inv, id, ""))] else []
  }

  /** The loop over `label_map.items()`. */
  function Emitted(lm: ODict<string, seq<Instr>>, inv: ODict<string, string>): seq<Instr>
    decreases |lm|
  {
    if |lm| == 0 then []
    else Emitted(lm[..|lm| - 1], inv) + Marker(inv, lm[|lm| - 1].0) + lm[|lm| - 1].1
  }

  /** The `instrs` list `output_json_prog` builds for one function. */
  function Relinearise(b: BlockInfo): seq<Instr> {
    Emitted(b.labelMap, Invert(b.labelToBlockId))
  }

  /** Every key of an assignment sequence ends up in the dictionary, holding a value assigned to it. */
  lemma {:induction false} PutAllFrom(xs: seq<(string, string)>, k: string)
    ensures k in Keys(PutAll([], xs)) <==> k in Keys(xs)
    ensures k in Keys(PutAll([], xs)) ==>
              exists j :: 0 <= j < |xs| && xs[j] == (k, GetOr(PutAll([], xs), k, ""))
    decreases |xs|
  {
    if |xs| > 0 {
      var init := xs[..|xs| - 1];
      PutAllFrom(init, k);
      assert Keys(xs) == Keys(init) + [xs[|xs| - 1].0];
      if k != xs[|xs| - 1].0 && k in Keys(PutAll([], xs)) {
        var j :| 0 <= j < |init| && init[j] == (k, GetOr(PutAll([], init), k, ""));
        assert xs[j] == init[j];
      }
    }
  }

  /**
    A block id is a key of the inverted map exactly when some label maps
    to it, and the label it maps back to is one that maps to it.
   */
  lemma InvertSpec(m: ODict<string, string>, id: string)
    requires DistinctKeys(m)
    ensures id in Keys(Invert(m)) <==> id in Values(m)
    ensures id in Keys(Invert(m)) ==> Get(m, GetOr(Invert(m), id, "")) == Some(id)
  {
    var s := Swapped(m);
    PutAllFrom(s, id);
    assert Keys(s) == Values(m);
    if id in Keys(Invert(m)) {
      var j :| 0 <= j < |s| && s[j] == (id, GetOr(Invert(m), id, ""));
      GetAt(m, j);
    }
  }

  /**
    A `{label: L}` marker goes before a block exactly when its id is the
    image of some label, and then L is such a label.
   */
  lemma MarkerSpec(b: BlockInfo, id: string)
    requires DistinctKeys(b.labelToBlockId)
    ensures |Marker(Invert(b.labelToBlockId), id)| <= 1
    ensures |Marker(Invert(b.labelToBlockId), id)| == 1 <==> id in Values(b.labelToBlockId)
    ensures |Marker(Invert(b.labelToBlockId), id)| == 1 ==>
              var x := Marker(Invert(b.labelToBlockId), id)[0];
              IsLabel(x) && x == LabelMarker(x.labelName.value) &&
              Get(b.labelToBlockId, x.labelName.value) == Some(id)
  {
    InvertSpec(b.labelToBlockId, id);
  }

  /** Blocks are emitted in stored order: the output of a split dictionary is the two outputs joined. */
  lemma {:induction false} EmittedAppend(a: ODict<string, seq<Instr>>, c: ODict<string, seq<Instr>>,
                                         inv: ODict<string, string>)
    ensures Emitted(a + c, inv) == Emitted(a, inv) + Emitted(c, inv)
    decreases |c|
  {
    if |c| == 0 {
      assert a + c == a;
    } else {
      var c' := c[..|c| - 1];
      assert (a + c)[..|a + c| - 1] == a + c';
      EmittedAppend(a, c', inv);
    }
  }

  /** Dropping the markers from the output leaves the blocks' instructions, concatenated in order. */
  lemma {:induction false} EmittedLabelFree(lm: ODict<string, seq<Instr>>, inv: ODict<string, string>)
    requires forall i, k :: 0 <= i < |lm| && 0 <= k < |lm[i].1| ==> !IsLabel(lm[i].1[k])
    ensures RemoveLabels(Emitted(lm, inv)) == Flatten(Values(lm))
    decreases |lm|
  {
    if |lm| > 0 {
      var init := lm[..|lm| - 1];
      var last := lm[|lm| - 1];
      assert forall i, k :: 0 <= i < |init| && 0 <= k < |init[i].1| ==> !IsLabel(init[i].1[k]) by {
        forall i, k | 0 <= i < |init| && 0 <= k < |init[i].1| ensures !IsLabel(init[i].1[k]) {
          assert init[i] == lm[i];
        }
      }
      EmittedLabelFree(init, inv);
      assert forall k :: 0 <= k < |last.1| ==> !IsLabel(last.1[k]);
      ValuesSnoc(lm);
      EmitFree(Emitted(init, inv), Marker(inv, last.0), last.1, Flatten(Values(init)));
    }
  }

  lemma ValuesSnoc<V>(lm: ODict<string, seq<V>>)
    requires |lm| > 0
    ensures Flatten(Values(lm)) == Flatten(Values(lm[..|lm| - 1])) + lm[|lm| - 1].1
  {
    assert Values(lm)[..|lm| - 1] == Values(lm[..|lm| - 1]);
  }

  /** One block of the loop: its marker vanishes and its instructions are kept. */
  lemma EmitFree(e: seq<Instr>, marker: seq<Instr>, block: seq<Instr>, before: seq<Instr>)
    requires RemoveLabels(e) == before
    requires forall k :: 0 <= k < |marker| ==> IsLabel(marker[k])
    requires forall k :: 0 <= k < |block| ==> !IsLabel(block[k])
    ensures RemoveLabels(e + marker + block) == before + block
  {
    RemoveLabelsAppend(e + marker, block);
    RemoveLabelsAppend(e, marker);
    RemoveLabelsNone(marker);
    RemoveLabelsNoop(block);
    assert before + [] == before;
  }

  /**
    For freshly formed blocks whose labels are distinct and do not read
    like synthetic ids, dropping the markers from the re-linearised
    function gives the original stream without its markers.
   */
  lemma RelineariseRoundTrip(body: seq<Instr>, fname: string)
    requires Blocks.UnambiguousLabels(body)
    ensures RemoveLabels(Relinearise(Blocks.FormBlocks(body, fname))) == RemoveLabels(body)
  {
    var b := Blocks.FormBlocks(body, fname);
    var t := Blocks.Segments(body, fname);
    Blocks.FormBlocksNoCollision(body, fname);
    Blocks.FormBlocksPartition(body, fname);
    forall i, k | 0 <= i < |b.labelMap| && 0 <= k < |b.labelMap[i].1| ensures !IsLabel(b.labelMap[i].1[k]) {
      assert b.labelMap[i].1 == Values(b.labelMap)[i] == t[i].instrs;
    }
    EmittedLabelFree(b.labelMap, Invert(b.labelToBlockId));
  }

  lemma {:induction false} OpenersFrom(t: seq<Blocks.Segment>, l: string)
    requires l in Blocks.Openers(t)
    ensures exists j :: 0 <= j < |t| && t[j].opener == Some(l)
    decreases |t|
  {
    var init := t[..|t| - 1];
    if l in Blocks.Openers(init) {
      OpenersFrom(init, l);
      var j :| 0 <= j < |init| && init[j].opener == Some(l);
      assert t[j] == init[j];
    }
  }

  lemma {:induction false} OpenersHas(t: seq<Blocks.Segment>, i: nat)
    requires i < |t| && t[i].opener.Some?
    ensures t[i].opener.value in Blocks.Openers(t)
    decreases |t|
  {
    if i < |t| - 1 {
      OpenersHas(t[..|t| - 1], i);
    }
  }

  /** The facts about a fresh `label_to_block_id` that decide the markers. */
  ghost predicate FreshLabels(body: seq<Instr>, fname: string) {
    var l2b := Blocks.FormBlocks(body, fname).labelToBlockId;
    var t := Blocks.Segments(body, fname);
    && DistinctKeys(l2b)
    && (forall l :: l in Keys(l2b) <==> l in Blocks.Openers(t))
    && (forall l :: l in Keys(l2b) ==> Get(l2b, l) == Some(Blocks.LabelledId(fname, l)))
    && (forall j :: 0 <= j < |t| && t[j].opener.Some? ==>
          !Blocks.IsSyntheticName(t[j].opener.value))
  }

  lemma FreshLabelsHold(body: seq<Instr>, fname: string)
    requires Blocks.UnambiguousLabels(body)
    ensures FreshLabels(body, fname)
  {
    var t := Blocks.Segments(body, fname);
    Blocks.FormBlocksResolve(body, fname);
    Blocks.FormBlocksLabelEntries(body, fname);
    Blocks.FinishOpeners(fname, body);
    forall j | 0 <= j < |t| && t[j].opener.Some? ensures !Blocks.IsSyntheticName(t[j].opener.value) {
      var l := t[j].opener.value;
      var names := Blocks.LabelNames(body);
      var k :| 0 <= k < |names| && names[k] == l;
    }
  }

  lemma LabelledMarker(body: seq<Instr>, fname: string, l: string)
    requires FreshLabels(body, fname)
    requires l in Blocks.Openers(Blocks.Segments(body, fname))
    ensures Marker(Invert(Blocks.FormBlocks(body, fname).labelToBlockId), Blocks.LabelledId(fname, l))
            == [LabelMarker(l)]
  {
    var b := Blocks.FormBlocks(body, fname);
    var l2b := b.labelToBlockId;
    var id := Blocks.LabelledId(fname, l);
    assert Get(l2b, l) == Some(id);
    assert l2b[IndexOf(l2b, l)].1 == id;
    assert Values(l2b)[IndexOf(l2b, l)] == id;
    MarkerSpec(b, id);
    var x := Marker(Invert(l2b), id)[0];
    var l' := x.labelName.value;
    assert l' in Keys(l2b);
    Blocks.LabelledIdInjective(fname, l, l');
  }

  lemma SyntheticNoMarker(body: seq<Instr>, fname: string, k: nat)
    requires FreshLabels(body, fname)
    ensures Marker(Invert(Blocks.FormBlocks(body, fname).labelToBlockId), Blocks.SyntheticId(fname, k)) == []
  {
    var b := Blocks.FormBlocks(body, fname);
    var l2b := b.labelToBlockId;
    var t := Blocks.Segments(body, fname);
    var id := Blocks.SyntheticId(fname, k);
    MarkerSpec(b, id);
    if |Marker(Invert(l2b), id)| == 1 {
      var l' := Marker(Invert(l2b), id)[0].labelName.value;
      assert l' in Keys(l2b);
      var s := "b" + Decimal(k);
      Blocks.LabelledIdInjective(fname, l', s);
      OpenersFrom(t, l');
      DecimalRoundTrip(k);
      assert s[1..] == Decimal(k);
      assert Blocks.IsSyntheticName(s);
      assert false;
    }
  }

  lemma SegmentMarker(body: seq<Instr>, fname: string, i: nat)
    requires FreshLabels(body, fname)
    requires i < |Blocks.Segments(body, fname)|
    ensures var t := Blocks.Segments(body, fname);
            Marker(Invert(Blocks.FormBlocks(body, fname).labelToBlockId),
                   Blocks.NameOf(fname, t[i], Blocks.CountSynthetic(t[..i])))
            == Blocks.OpenerMarker(t[i])
  {
    var t := Blocks.Segments(body, fname);
    if t[i].opener.Some? {
      OpenersHas(t, i);
      LabelledMarker(body, fname, t[i].opener.value);
    } else {
      SyntheticNoMarker(body, fname, Blocks.CountSynthetic(t[..i]));
    }
  }

  lemma {:induction false} EmittedNamed(fname: string, t: seq<Blocks.Segment>, inv: ODict<string, string>)
    requires forall i :: 0 <= i < |t| ==>
               Marker(inv, Blocks.NameOf(fname, t[i], Blocks.CountSynthetic(t[..i]))) == Blocks.OpenerMarker(t[i])
    ensures Emitted(Blocks.Named(fname, t, 0), inv) == Blocks.Emit(t)
    decreases |t|
  {
    if |t| > 0 {
      var init := t[..|t| - 1];
      forall i | 0 <= i < |init|
        ensures Marker(inv, Blocks.NameOf(fname, init[i], Blocks.CountSynthetic(init[..i]))) == Blocks.OpenerMarker(init[i])
      {
        assert init[i] == t[i] && init[..i] == t[..i];
      }
      EmittedNamed(fname, init, inv);
      var n := Blocks.Named(fname, t, 0);
      assert n[..|n| - 1] == Blocks.Named(fname, init, 0);
    }
  }

  /**
    For freshly formed blocks whose labels are distinct, do not read like
    synthetic ids, and each directly precede an instruction, re-linearising
    gives back exactly the original stream.
   */
  lemma RelineariseExact(body: seq<Instr>, fname: string)
    requires Blocks.UnambiguousLabels(body)
    requires Blocks.NoDanglingLabels(body)
    requires Blocks.PlainMarkers(body)
    ensures Relinearise(Blocks.FormBlocks(body, fname)) == body
  {
    var t := Blocks.Segments(body, fname);
    Blocks.FormBlocksNoCollision(body, fname);
    FreshLabelsHold(body, fname);
    forall i | 0 <= i < |t|
      ensures Marker(Invert(Blocks.FormBlocks(body, fname).labelToBlockId),
                     Blocks.NameOf(fname, t[i], Blocks.CountSynthetic(t[..i]))) == Blocks.OpenerMarker(t[i])
    {
      SegmentMarker(body, fname, i);
    }
    EmittedNamed(fname, t, Invert(Blocks.FormBlocks(body, fname).labelToBlockId));
    Blocks.FormBlocksEmit(body, fname);
  }
}
