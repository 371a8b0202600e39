/**
  The instruction model of briltool/ir.py.

  A Bril instruction is a JSON object.  The fields the optimiser looks at
  are kept as separate optional components; everything else (`type`,
  `funcs`, positions, ...) is carried in `extra`, which no pass interprets.
  JSON values that may appear in `dest` and `args` are kept loose enough to
  express "present but not a string" and "present but not a list".
 */
module Ir {
  import opened Common
  import opened OrderedMap

  /** A `const` literal (float literals are not modelled). */
  datatype Literal = IntLit(i: int) | BoolLit(b: bool)

  /** A JSON value found in `dest` or `args`: a string, a list of strings, or anything else. */
  datatype Value = Str(s: string) | StrList(items: seq<string>) | Other(tag: nat)

  /** One element of a function's `instrs`: a label marker or an operation. */
  datatype Instr = Instr(
    labelName: Option<string>,
    op: Option<string>,
    dest: Option<Value>,
    args: Option<Value>,
    labels: Option<seq<string>>,
    value: Option<Literal>,
    extra: seq<(string, string)>
  )

  /** The operations that end a basic block. */
  const Terminators: set<string> := {"jmp", "br", "ret"}

  /** `is_label`: the record has a `label` field and no `op` field. */
  predicate IsLabel(i: Instr) {
    i.labelName.Some? && i.op.None?
  }

  /** `instr.get("op") in TERMINATORS`. */
  predicate IsTerminator(i: Instr) {
    i.op.Some? && i.op.value in Terminators
  }

  /** The marker `{"label": l}` that re-linearisation emits. */
  function LabelMarker(l: string): (i: Instr)
    ensures IsLabel(i) && i.labelName == Some(l)
  {
    Instr(Some(l), None, None, None, None, None, [])
  }

  /** `get_dest`: the destination when it is a string, otherwise nothing. */
  function GetDest(i: Instr): (r: Option<string>)
    ensures r.Some? <==> (i.dest.Some? && i.dest.value.Str?)
    ensures r.Some? ==> i.dest == Some(Str(r.value))
  {
    match i.dest
    case Some(Str(d)) => Some(d)
    case _ => None
  }

  /** `get_args`: the argument names in order when `args` is a list, otherwise none. */
  function GetArgs(i: Instr): (r: seq<string>)
    ensures i.args.Some? && i.args.value.StrList? ==> r == i.args.value.items
    ensures !(i.args.Some? && i.args.value.StrList?) ==> r == []
  {
    match i.args
    case Some(StrList(xs)) => xs
    case _ => []
  }

  /** The instruction stream with every label marker dropped. */
  function RemoveLabels(s: seq<Instr>): (r: seq<Instr>)
    ensures forall i :: 0 <= i < |r| ==> !IsLabel(r[i])
    ensures |r| <= |s|
    decreases |s|
  {
    if |s| == 0 then []
    else if IsLabel(s[|s| - 1]) then RemoveLabels(s[..|s| - 1])
    else RemoveLabels(s[..|s| - 1]) + [s[|s| - 1]]
  }

  lemma {:induction false} RemoveLabelsAppend(a: seq<Instr>, b: seq<Instr>)
    ensures RemoveLabels(a + b) == RemoveLabels(a) + RemoveLabels(b)
    decreases |b|
  {
    if |b| == 0 {
      assert a + b == a;
    } else {
      var b' := b[..|b| - 1];
      assert (a + b)[..|a + b| - 1] == a + b';
      RemoveLabelsAppend(a, b');
    }
  }

  /** A stream of label markers only has an empty label-free form. */
  lemma {:induction false} RemoveLabelsNone(s: seq<Instr>)
    requires forall i :: 0 <= i < |s| ==> IsLabel(s[i])
    ensures RemoveLabels(s) == []
    decreases |s|
  {
    if |s| > 0 {
      RemoveLabelsNone(s[..|s| - 1]);
    }
  }

  /** A stream without label markers is its own label-free form. */
  lemma {:induction false} RemoveLabelsNoop(s: seq<Instr>)
    requires forall i :: 0 <= i < |s| ==> !IsLabel(s[i])
    ensures RemoveLabels(s) == s
    decreases |s|
  {
    if |s| > 0 {
      RemoveLabelsNoop(s[..|s| - 1]);
    }
  }

  /**
    `BlockInfo`: the blocks of one function (`label_map`, block id to
    instructions, in creation order), the label-to-block-id map, the
    function's remaining JSON fields, and the CFG.
   */
  datatype BlockInfo = BlockInfo(
    functionName: string,
    labelMap: ODict<string, seq<Instr>>,
    labelToBlockId: ODict<string, string>,
    functionMeta: seq<(string, string)>,
    successors: ODict<string, seq<string>>,
    predecessors: ODict<string, seq<string>>
  )
}
