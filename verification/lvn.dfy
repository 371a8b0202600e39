/**
  Local value numbering over one basic block (briltool/passes/lvn.py).

  The pass folds left to right over the block with a table of four parts:
  the current value number of each variable, the canonical variable of
  each number, the number of each expression already computed, and a
  counter for fresh numbers.  It rewrites operands to canonical variables
  and turns a recomputation into a copy of the variable that holds it.

  The table's dicts are never iterated, so they are modelled as Dafny maps.
  The source mutates the block in place and has no rollback, so a failing
  instruction yields the block as far as it was rewritten.
 */
module Lvn {
  import opened Common
  import opened Ir

  /** One component of an expression key: a constant or a value number. */
  datatype Operand = C(k: int) | V(n: nat)

  /** The key `(op, operands)` of the expression table. */
  datatype Expr = Expr(op: string, operands: seq<Operand>)

  /** `LVNTable`. */
  datatype Table = Table(
    expr2id: map<Expr, nat>,
    id2canon: map<nat, string>,
    status: map<string, nat>,
    nextId: nat
  )

  /** The exceptions the pass can raise. */
  datatype LvnError =
    | MissingField(name: string)   // KeyError on `value` or `args`
    | NoFirstArg                   // IndexError: `id` with no argument
    | BadArgs                      // `args` is neither a string nor a list of strings
    | Unsupported(op: string)      // ValueError from `_get_expr`
    | BadDest                      // a destination that is not a string

  const EmptyTable := Table(map[], map[], map[], 0)

  /** The operations `_get_expr` numbers as arithmetic. */
  const Arith: set<string> := {"add", "mul", "sub", "div"}

  /** Every number in the table was handed out already and has a canonical variable. */
  predicate Valid(t: Table) {
    && (forall e :: e in t.expr2id ==> t.expr2id[e] < t.nextId && t.expr2id[e] in t.id2canon)
    && (forall n :: n in t.id2canon ==> n < t.nextId)
    && (forall v :: v in t.status ==> t.status[v] < t.nextId && t.status[v] in t.id2canon)
  }

  /** The counter never goes back, and no expression or canonical entry is ever overwritten. */
  predicate Extends(t: Table, t': Table) {
    && t.nextId <= t'.nextId
    && (forall n :: n in t.id2canon ==> n in t'.id2canon && t'.id2canon[n] == t.id2canon[n])
    && (forall e :: e in t.expr2id ==> e in t'.expr2id && t'.expr2id[e] == t.expr2id[e])
  }

  /** Every variable keeps its number (new variables may appear). */
  predicate StatusGrows(t: Table, t': Table) {
    forall v :: v in t.status ==> v in t'.status && t'.status[v] == t.status[v]
  }

  /** `y` differs from `x` at most in `op` and `args`. */
  predicate Keeps(x: Instr, y: Instr) {
    && y.labelName == x.labelName
    && y.dest == x.dest
    && y.labels == x.labels
    && y.value == x.value
    && y.extra == x.extra
  }

  /** `_ensure_var_id`: the number of `v`, handing out a fresh one on first sight. */
  function EnsureVarId(t: Table, v: string): (r: (nat, Table))
    requires Valid(t)
    ensures Valid(r.1) && Extends(t, r.1) && StatusGrows(t, r.1) && r.1.expr2id == t.expr2id
    ensures v in r.1.status && r.1.status[v] == r.0
    ensures forall w :: w in r.1.status <==> w in t.status || w == v
    ensures v in t.status ==> r.1 == t
    ensures v !in t.status ==> && r.0 == t.nextId && r.1.id2canon[r.0] == v
                               && forall w :: w in t.status ==> t.status[w] != r.0
  {
    if v in t.status then (t.status[v], t)
    else
      var n := t.nextId;
      (n, t.(status := t.status[v := n], id2canon := t.id2canon[n := v], nextId := n + 1))
  }

  /**
    The operand an argument is rewritten to: its number's canonical variable
    when that variable is a non-empty name that still holds the number,
    otherwise the argument itself.
   */
  function Canonical(t: Table, a: string, n: nat): (c: string)
    requires a in t.status && t.status[a] == n
    ensures c in t.status && t.status[c] == n
    ensures c == a || (n in t.id2canon && c == t.id2canon[n])
  {
    var canon := if n in t.id2canon then t.id2canon[n] else a;
    if canon != "" && canon in t.status && t.status[canon] == n then canon else a
  }

  /** Two steps that each extend the table and keep every variable's number do so together. */
  lemma Chain(t: Table, t1: Table, t2: Table)
    requires Extends(t, t1) && StatusGrows(t, t1) && Extends(t1, t2) && StatusGrows(t1, t2)
    ensures Extends(t, t2) && StatusGrows(t, t2)
  {
  }

  /** `t'` is `t` after numbering variables only: nothing is lost and no key is added. */
  predicate Grown(t: Table, t': Table) {
    Valid(t') && Extends(t, t') && StatusGrows(t, t') && t'.expr2id == t.expr2id
  }

  /**
    `ys` is the argument list `xs` rewritten against `t'`: position by
    position each rewritten operand holds the same number as the argument,
    and exactly the arguments were added to the variables seen.
   */
  ghost predicate RewrittenArgs(t: Table, xs: seq<string>, ys: seq<string>, t': Table) {
    && Grown(t, t')
    && |ys| == |xs|
    && (forall k :: 0 <= k < |xs| ==>
          xs[k] in t'.status && ys[k] in t'.status && t'.status[ys[k]] == t'.status[xs[k]])
    && (forall w :: w in t'.status <==> w in t.status || w in xs)
  }

  lemma RewriteCons(t: Table, xs: seq<string>, t1: Table, c: string, ys: seq<string>, t2: Table)
    requires Valid(t) && |xs| > 0 && Grown(t, t1)
    requires forall w :: w in t1.status <==> w in t.status || w == xs[0]
    requires xs[0] in t1.status && c in t1.status && t1.status[c] == t1.status[xs[0]]
    requires RewrittenArgs(t1, xs[1..], ys, t2)
    ensures RewrittenArgs(t, xs, [c] + ys, t2)
  {
    Chain(t, t1, t2);
    RewritePositions(xs, t1, c, ys, t2);
    RewriteDomain(t.status.Keys, xs, t1.status.Keys, t2.status.Keys);
  }

  lemma RewritePositions(xs: seq<string>, t1: Table, c: string, ys: seq<string>, t2: Table)
    requires |xs| > 0 && StatusGrows(t1, t2)
    requires xs[0] in t1.status && c in t1.status && t1.status[c] == t1.status[xs[0]]
    requires |ys| == |xs| - 1
    requires forall k :: 0 <= k < |xs| - 1 ==>
               xs[1..][k] in t2.status && ys[k] in t2.status && t2.status[ys[k]] == t2.status[xs[1..][k]]
    ensures forall k :: 0 <= k < |xs| ==>
              xs[k] in t2.status && ([c] + ys)[k] in t2.status && t2.status[([c] + ys)[k]] == t2.status[xs[k]]
  {
    forall k | 0 <= k < |xs|
      ensures xs[k] in t2.status && ([c] + ys)[k] in t2.status && t2.status[([c] + ys)[k]] == t2.status[xs[k]]
    {
      if k > 0 {
        assert xs[k] == xs[1..][k - 1] && ([c] + ys)[k] == ys[k - 1];
      }
    }
  }

  lemma RewriteDomain(s0: set<string>, xs: seq<string>, s1: set<string>, s2: set<string>)
    requires |xs| > 0
    requires forall w :: w in s1 <==> w in s0 || w == xs[0]
    requires forall w :: w in s2 <==> w in s1 || w in xs[1..]
    ensures forall w :: w in s2 <==> w in s0 || w in xs
  {
    assert xs == [xs[0]] + xs[1..];
  }

  /** The argument loop: number every argument in order and rewrite it to its canonical variable. */
  function RewriteArgs(t: Table, xs: seq<string>): (r: (seq<string>, Table))
    requires Valid(t)
    ensures RewrittenArgs(t, xs, r.0, r.1)
    decreases |xs|
  {
    if |xs| == 0 then ([], t)
    else
      var first := EnsureVarId(t, xs[0]);
      var c := Canonical(first.1, xs[0], first.0);
      var rest := RewriteArgs(first.1, xs[1..]);
      RewriteCons(t, xs, first.1, c, rest.0, rest.1);
      ([c] + rest.0, rest.1)
  }

  /** `ids` are the numbers `t'` gives the variables `xs`, position by position. */
  predicate NumberedArgs(t: Table, xs: seq<string>, ids: seq<nat>, t': Table) {
    && Grown(t, t')
    && |ids| == |xs|
    && (forall k :: 0 <= k < |xs| ==> xs[k] in t'.status && t'.status[xs[k]] == ids[k])
  }

  lemma NumberCons(t: Table, xs: seq<string>, n: nat, t1: Table, ids: seq<nat>, t2: Table)
    requires Valid(t) && |xs| > 0 && Grown(t, t1)
    requires xs[0] in t1.status && t1.status[xs[0]] == n
    requires NumberedArgs(t1, xs[1..], ids, t2)
    ensures NumberedArgs(t, xs, [n] + ids, t2)
  {
    Chain(t, t1, t2);
    forall k | 1 <= k < |xs| ensures xs[k] == xs[1..][k - 1] && ([n] + ids)[k] == ids[k - 1] {
    }
  }

  /** The generator over arguments in `_get_expr`: their numbers, in order. */
  function EnsureAll(t: Table, xs: seq<string>): (r: (seq<nat>, Table))
    requires Valid(t)
    ensures NumberedArgs(t, xs, r.0, r.1)
    decreases |xs|
  {
    if |xs| == 0 then ([], t)
    else
      var first := EnsureVarId(t, xs[0]);
      var rest := EnsureAll(first.1, xs[1..]);
      NumberCons(t, xs, first.0, first.1, rest.0, rest.1);
      ([first.0] + rest.0, rest.1)
  }

  /**
    The constant component of a key.  Python's `True == 1` and
    `hash(True) == hash(1)`, so a boolean literal keys like 0 or 1.
   */
  function ConstKey(l: Literal): (k: int)
    ensures l.IntLit? ==> k == l.i
    ensures l.BoolLit? ==> (k == 1 <==> l.b) && (k == 0 <==> !l.b)
  {
    match l
    case IntLit(i) => i
    case BoolLit(b) => if b then 1 else 0
  }

  /** `instr["args"][0]`: a list's first element, or a string's first character. */
  function FirstArg(args: Option<Value>): Result<string, LvnError> {
    match args
    case None => Err(MissingField("args"))
    case Some(StrList(xs)) => if |xs| > 0 then Ok(xs[0]) else Err(NoFirstArg)
    case Some(Str(s)) => if |s| > 0 then Ok([s[0]]) else Err(NoFirstArg)
    case Some(Other(_)) => Err(BadArgs)
  }

  /** `for a in instr["args"]`: a list's elements, or a string's characters. */
  function IterArgs(args: Option<Value>): Result<seq<string>, LvnError> {
    match args
    case None => Err(MissingField("args"))
    case Some(StrList(xs)) => Ok(xs)
    case Some(Str(s)) => Ok(seq(|s|, k requires 0 <= k < |s| => [s[k]]))
    case Some(Other(_)) => Err(BadArgs)
  }

  /** The operations `_get_expr` accepts. */
  predicate Supported(op: string) {
    op == "const" || op == "id" || op in Arith
  }

  /** `_get_expr`: the key of `x`'s expression, numbering the variables it reads. */
  function GetExpr(op: string, x: Instr, t: Table): (r: Result<(Expr, Table), LvnError>)
    requires Valid(t)
    ensures !Supported(op) ==> r == Err(Unsupported(op))
    ensures r.Err? && Supported(op) ==> r.error.MissingField? || r.error == NoFirstArg || r.error == BadArgs
    ensures op == "const" ==> (r.Ok? <==> x.value.Some?)
    ensures r.Ok? ==> var (e, t') := r.value;
              && e.op == op && Valid(t') && Extends(t, t') && StatusGrows(t, t')
              && (op == "const" ==> e.operands == [C(ConstKey(x.value.value))] && t' == t)
              && (op == "id" ==> |e.operands| == 1 && FirstArg(x.args).Ok? &&
                                 FirstArg(x.args).value in t'.status &&
                                 e.operands[0] == V(t'.status[FirstArg(x.args).value]))
              && (op in Arith ==> IterArgs(x.args).Ok? && |e.operands| == |IterArgs(x.args).value| &&
                                  forall k :: 0 <= k < |e.operands| ==>
                                    IterArgs(x.args).value[k] in t'.status &&
                                    e.operands[k] == V(t'.status[IterArgs(x.args).value[k]]))
  {
    if op == "const" then
      match x.value
      case None => Err(MissingField("value"))
      case Some(l) => Ok((Expr(op, [C(ConstKey(l))]), t))
    else if op == "id" then
      match FirstArg(x.args)
      case Err(e) => Err(e)
      case Ok(a) =>
        var (n, t1) := EnsureVarId(t, a);
        Ok((Expr(op, [V(n)]), t1))
    else if op in Arith then
      match IterArgs(x.args)
      case Err(e) => Err(e)
      case Ok(xs) =>
        var (ids, t1) := EnsureAll(t, xs);
        Ok((Expr(op, seq(|ids|, k requires 0 <= k < |ids| => V(ids[k]))), t1))
    else Err(Unsupported(op))
  }

  /** The canonical variable of number `n` still holds `n`. */
  predicate CanonHolds(t: Table, n: nat) {
    n in t.id2canon && t.id2canon[n] in t.status && t.status[t.id2canon[n]] == n
  }

  /** `x` turned into the copy `id c`. */
  function AsCopy(x: Instr, c: string): (y: Instr)
    ensures Keeps(x, y) && y.op == Some("id") && GetArgs(y) == [c]
  {
    x.(op := Some("id"), args := Some(StrList([c])))
  }

  /**
    The memo lookup for destination `d` and key `e`: on a hit `d` takes the
    memoised number, and the instruction becomes a copy when that number's
    canonical variable still holds it; on a miss `d` gets a fresh number and
    becomes its canonical variable.
   */
  function Memoise(t: Table, x: Instr, d: string, e: Expr): (r: (Instr, Table))
    requires Valid(t)
    ensures Valid(r.1) && Extends(t, r.1) && Keeps(x, r.0)
    ensures e in r.1.expr2id && d in r.1.status && r.1.status[d] == r.1.expr2id[e]
    ensures forall v :: v in r.1.status <==> v in t.status || v == d
    ensures forall v :: v in t.status && v != d ==> r.1.status[v] == t.status[v]
    ensures e in t.expr2id ==> r.1.expr2id == t.expr2id && r.1.id2canon == t.id2canon && r.1.nextId == t.nextId
    ensures e in t.expr2id && CanonHolds(t, t.expr2id[e]) ==>
              r.0 == AsCopy(x, t.id2canon[t.expr2id[e]]) && t.status[GetArgs(r.0)[0]] == t.expr2id[e]
    ensures e in t.expr2id && !CanonHolds(t, t.expr2id[e]) ==> r.0 == x
    ensures e !in t.expr2id ==> && r.0 == x && r.1.nextId == t.nextId + 1
                                && r.1.status[d] == t.nextId && r.1.id2canon[t.nextId] == d
                                && forall v :: v in t.status ==> t.status[v] != r.1.status[d]
  {
    if e in t.expr2id then
      var n := t.expr2id[e];
      var x' := if CanonHolds(t, n) then AsCopy(x, t.id2canon[n]) else x;
      (x', t.(status := t.status[d := n]))
    else
      var n := t.nextId;
      (x, Table(t.expr2id[e := n], t.id2canon[n := d], t.status[d := n], n + 1))
  }

  /** The outcome of one instruction: the rewritten instruction and table, or an exception. */
  datatype StepResult = Next(x: Instr, t: Table) | Stop(err: LvnError, x: Instr)

  /** The argument rewrite, done whenever `args` is a list. */
  function Canonicalise(t: Table, x: Instr): (r: (Instr, Table))
    requires Valid(t)
    ensures Valid(r.1) && Extends(t, r.1) && StatusGrows(t, r.1) && r.1.expr2id == t.expr2id
    ensures Keeps(x, r.0) && r.0.op == x.op
    ensures !(x.args.Some? && x.args.value.StrList?) ==> r == (x, t)
    ensures x.args.Some? && x.args.value.StrList? ==>
              && r.0.args.Some? && r.0.args.value.StrList?
              && |GetArgs(r.0)| == |GetArgs(x)|
              && forall k :: 0 <= k < |GetArgs(x)| ==>
                   GetArgs(x)[k] in r.1.status && GetArgs(r.0)[k] in r.1.status &&
                   r.1.status[GetArgs(r.0)[k]] == r.1.status[GetArgs(x)[k]]
  {
    match x.args
    case Some(StrList(xs)) =>
      var (ys, t1) := RewriteArgs(t, xs);
      (x.(args := Some(StrList(ys))), t1)
    case _ => (x, t)
  }

  /** Labels (no `op`) and terminators are skipped. */
  predicate Skipped(x: Instr) {
    x.op.None? || x.op.value in Terminators
  }

  /** One iteration of the loop of `local_value_numbering`. */
  function Step(t: Table, x: Instr): (r: StepResult)
    requires Valid(t)
    ensures Keeps(x, r.x)
    ensures r.Next? ==> Valid(r.t) && Extends(t, r.t)
    ensures Skipped(x) ==> r == Next(x, t)
    ensures x.dest.None? ==> r.Next? && r.x.op == x.op && r.t.expr2id == t.expr2id
    ensures r.Next? && GetDest(x).Some? && !Skipped(x) ==>
              GetDest(x).value in r.t.status && r.t.status[GetDest(x).value] in r.t.expr2id.Values
    ensures r.Stop? ==> !Skipped(x) && x.dest.Some? && r.x.op == x.op
    ensures r.Stop? && GetDest(x).Some? ==> (r.err == Unsupported(x.op.value) <==> !Supported(x.op.value))
  {
    if Skipped(x) then Next(x, t)
    else
      var (x1, t1) := Canonicalise(t, x);
      match x1.dest
      case None => Next(x1, t1)
      case Some(Str(d)) =>
        (match GetExpr(x.op.value, x1, t1)
         case Err(err) => Stop(err, x1)
         case Ok((e, t2)) =>
           var (x2, t3) := Memoise(t2, x1, d, e);
           Next(x2, t3))
      case Some(_) => Stop(BadDest, x1)
  }

  /** The state after a prefix of the block. */
  datatype RunState = Running(done: seq<Instr>, t: Table) | Halted(err: LvnError, done: seq<Instr>)

  /** The loop over the first `n` instructions. */
  function RunUpTo(b: seq<Instr>, n: nat): (r: RunState)
    requires n <= |b|
    ensures r.Running? ==> |r.done| == n && Valid(r.t)
    ensures r.Halted? ==> 0 < |r.done| <= n
    decreases n
  {
    if n == 0 then Running([], EmptyTable)
    else
      match RunUpTo(b, n - 1)
      case Halted(e, p) => Halted(e, p)
      case Running(done, t) =>
        match Step(t, b[n - 1])
        case Next(x, t') => Running(done + [x], t')
        case Stop(e, x) => Halted(e, done + [x])
  }

  /** The block after the pass, or the exception with the block as left in place. */
  datatype Outcome = Done(block: seq<Instr>) | Failed(err: LvnError, block: seq<Instr>)

  /** `local_value_numbering`. */
  function LocalValueNumbering(b: seq<Instr>): Outcome {
    match RunUpTo(b, |b|)
    case Running(done, _) => Done(done)
    case Halted(e, p) => Failed(e, p + b[|p|..])
  }

  /** What the pass may do to one instruction. */
  predicate Rewrites(x: Instr, y: Instr) {
    && Keeps(x, y)
    && (Skipped(x) ==> y == x)
    && (x.dest.None? ==> y.op == x.op)
  }

  lemma {:induction false} RunShape(b: seq<Instr>, n: nat)
    requires n <= |b|
    ensures |RunUpTo(b, n).done| <= n
    ensures forall i :: 0 <= i < |RunUpTo(b, n).done| ==> Rewrites(b[i], RunUpTo(b, n).done[i])
    ensures RunUpTo(b, n).Halted? ==> var k := |RunUpTo(b, n).done| - 1;
              !Skipped(b[k]) && b[k].dest.Some? && RunUpTo(b, n).done[k].op == b[k].op
    decreases n
  {
    if n > 0 {
      RunShape(b, n - 1);
      var prev := RunUpTo(b, n - 1);
      var r := RunUpTo(b, n);
      if prev.Halted? {
        assert r == prev;
      } else {
        var st := Step(prev.t, b[n - 1]);
        StepRewrites(prev.t, b[n - 1]);
        assert r.done == prev.done + [st.x];
        RewritesAppend(b, prev.done, st.x);
      }
    }
  }

  lemma RewritesAppend(b: seq<Instr>, done: seq<Instr>, x: Instr)
    requires |done| < |b|
    requires forall i :: 0 <= i < |done| ==> Rewrites(b[i], done[i])
    requires Rewrites(b[|done|], x)
    ensures forall i :: 0 <= i < |done| + 1 ==> Rewrites(b[i], (done + [x])[i])
  {
    forall i | 0 <= i < |done| + 1 ensures Rewrites(b[i], (done + [x])[i]) {
      if i < |done| {
        assert (done + [x])[i] == done[i];
      }
    }
  }

  lemma StepRewrites(t: Table, x: Instr)
    requires Valid(t)
    ensures Rewrites(x, Step(t, x).x)
    ensures Step(t, x).Stop? ==> !Skipped(x) && x.dest.Some? && Step(t, x).x.op == x.op
  {
  }

  /**
    The pass preserves the block's length, order and every field other than
    `op` and `args`; labels and terminators are untouched, and an
    instruction without a destination keeps its operation.  On an exception
    the failing instruction is a non-skipped one with a destination, and
    everything after it is as it was.
   */
  lemma LvnShape(b: seq<Instr>)
    ensures |LocalValueNumbering(b).block| == |b|
    ensures forall i :: 0 <= i < |b| ==> Rewrites(b[i], LocalValueNumbering(b).block[i])
    ensures LocalValueNumbering(b).Failed? ==>
              exists k :: 0 <= k < |b| && !Skipped(b[k]) && b[k].dest.Some? &&
                          LocalValueNumbering(b).block[k + 1..] == b[k + 1..]
  {
    RunShape(b, |b|);
    var r := RunUpTo(b, |b|);
    if r.Halted? {
      var k := |r.done| - 1;
      assert LocalValueNumbering(b).block[k + 1..] == b[k + 1..];
    }
  }

  /** The table only grows along a block: no number or expression entry is ever reassigned. */
  lemma {:induction false} RunExtends(b: seq<Instr>, i: nat, j: nat)
    requires i <= j <= |b|
    requires RunUpTo(b, j).Running?
    ensures RunUpTo(b, i).Running?
    ensures Extends(RunUpTo(b, i).t, RunUpTo(b, j).t)
    decreases j - i
  {
    if i < j {
      RunExtends(b, i, j - 1);
    }
  }

  lemma {:induction false} HaltedStays(b: seq<Instr>, i: nat, j: nat)
    requires i <= j <= |b|
    requires RunUpTo(b, i).Halted?
    ensures RunUpTo(b, j) == RunUpTo(b, i)
    decreases j - i
  {
    if i < j {
      HaltedStays(b, i, j - 1);
    }
  }

  /**
    A non-terminator with a string destination and an operation outside
    `const`/`id`/`add`/`mul`/`sub`/`div` always makes the pass raise.
   */
  lemma LvnRejectsUnsupported(b: seq<Instr>, k: nat)
    requires k < |b| && !Skipped(b[k]) && GetDest(b[k]).Some? && !Supported(b[k].op.value)
    ensures LocalValueNumbering(b).Failed?
  {
    var r := RunUpTo(b, k + 1);
    if RunUpTo(b, k).Running? {
      var t := RunUpTo(b, k).t;
      assert Step(t, b[k]).Stop?;
      assert r.Halted?;
    } else {
      HaltedStays(b, k, k + 1);
    }
    HaltedStays(b, k + 1, |b|);
  }

  /** A variable that is its own number's canonical variable is never rewritten. */
  lemma {:induction false} RewriteCanonical(t: Table, xs: seq<string>)
    requires Valid(t)
    requires forall k :: 0 <= k < |xs| ==> xs[k] in t.status && t.id2canon[t.status[xs[k]]] == xs[k]
    ensures RewriteArgs(t, xs) == (xs, t)
    decreases |xs|
  {
    if |xs| > 0 {
      RewriteCanonical(t, xs[1..]);
      assert xs == [xs[0]] + xs[1..];
    }
  }

  /** Numbering variables that already have numbers changes nothing. */
  lemma {:induction false} EnsureKnown(t: Table, xs: seq<string>)
    requires Valid(t)
    requires forall k :: 0 <= k < |xs| ==> xs[k] in t.status
    ensures EnsureAll(t, xs).1 == t
    decreases |xs|
  {
    if |xs| > 0 {
      EnsureKnown(t, xs[1..]);
    }
  }

  // Examples of the pass as written

  function ConstI(d: string, n: int): Instr {
    Instr(None, Some("const"), Some(Str(d)), None, None, Some(IntLit(n)), [])
  }

  function ConstB(d: string, v: bool): Instr {
    Instr(None, Some("const"), Some(Str(d)), None, None, Some(BoolLit(v)), [])
  }

  function OpI(op: string, d: string, args: seq<string>): Instr {
    Instr(None, Some(op), Some(Str(d)), Some(StrList(args)), None, None, [])
  }

  /** A fresh constant on a table that has not seen it. */
  lemma ConstMiss(t: Table, d: string, l: Literal)
    requires Valid(t) && Expr("const", [C(ConstKey(l))]) !in t.expr2id
    ensures var x := Instr(None, Some("const"), Some(Str(d)), None, None, Some(l), []);
            Step(t, x) == Next(x, Table(t.expr2id[Expr("const", [C(ConstKey(l))]) := t.nextId],
                                        t.id2canon[t.nextId := d], t.status[d := t.nextId], t.nextId + 1))
  {
  }

  /**
    `x = const true; y = const 1`: the two keys coincide, so on any table
    that has not seen the constant, `y` becomes `id x`.
   */
  lemma BoolKeysLikeInt(t: Table, x: string, y: string)
    requires Valid(t) && Expr("const", [C(1)]) !in t.expr2id
    ensures Step(t, ConstB(x, true)).Next?
    ensures Step(Step(t, ConstB(x, true)).t, ConstI(y, 1)).x == AsCopy(ConstI(y, 1), x)
  {
    ConstMiss(t, x, BoolLit(true));
    var t1 := Step(t, ConstB(x, true)).t;
    assert CanonHolds(t1, t.nextId);
  }

  /** `d = id a` with `a` canonical, on a table that has not seen the copy. */
  lemma CopyMiss(t: Table, d: string, a: string)
    requires Valid(t) && a in t.status && t.id2canon[t.status[a]] == a
    requires Expr("id", [V(t.status[a])]) !in t.expr2id
    ensures Step(t, OpI("id", d, [a])) ==
            Next(OpI("id", d, [a]), Table(t.expr2id[Expr("id", [V(t.status[a])]) := t.nextId],
                                          t.id2canon[t.nextId := d], t.status[d := t.nextId], t.nextId + 1))
  {
    RewriteCanonical(t, [a]);
    assert Canonicalise(t, OpI("id", d, [a])) == (OpI("id", d, [a]), t);
  }

  /** `d = id a` with `a` canonical, when the copy was seen and its canonical variable still holds it. */
  lemma CopyHit(t: Table, d: string, a: string)
    requires Valid(t) && a in t.status && t.id2canon[t.status[a]] == a
    requires Expr("id", [V(t.status[a])]) in t.expr2id && CanonHolds(t, t.expr2id[Expr("id", [V(t.status[a])])])
    ensures Step(t, OpI("id", d, [a])).Next?
    ensures Step(t, OpI("id", d, [a])).x ==
            AsCopy(OpI("id", d, [a]), t.id2canon[t.expr2id[Expr("id", [V(t.status[a])])]])
  {
    RewriteCanonical(t, [a]);
    assert Canonicalise(t, OpI("id", d, [a])) == (OpI("id", d, [a]), t);
  }

  /**
    `b = id a; c = id a`: a copy is memoised, not aliased.  `b` gets a
    number other than `a`'s, and the second copy becomes `id b`.
   */
  lemma CopyIsMemoised(t: Table, a: string, b: string, c: string)
    requires Valid(t) && a in t.status && t.id2canon[t.status[a]] == a && b != a
    requires Expr("id", [V(t.status[a])]) !in t.expr2id
    ensures Step(t, OpI("id", b, [a])).Next?
    ensures var t1 := Step(t, OpI("id", b, [a])).t;
            && t1.status[b] != t1.status[a]
            && Step(t1, OpI("id", c, [a])).x == AsCopy(OpI("id", c, [a]), b)
  {
    CopyMiss(t, b, a);
    var t1 := Step(t, OpI("id", b, [a])).t;
    assert t1.status[a] == t.status[a] && t1.id2canon[t.status[a]] == a;
    assert CanonHolds(t1, t.nextId);
    CopyHit(t1, c, a);
  }

  /** `d = add x y` with both operands canonical, on a table that has not seen the sum. */
  lemma SumMiss(t: Table, d: string, x: string, y: string)
    requires Valid(t) && x in t.status && y in t.status
    requires t.id2canon[t.status[x]] == x && t.id2canon[t.status[y]] == y
    requires Expr("add", [V(t.status[x]), V(t.status[y])]) !in t.expr2id
    ensures Step(t, OpI("add", d, [x, y])) ==
            Next(OpI("add", d, [x, y]),
                 Table(t.expr2id[Expr("add", [V(t.status[x]), V(t.status[y])]) := t.nextId],
                       t.id2canon[t.nextId := d], t.status[d := t.nextId], t.nextId + 1))
  {
    var i := OpI("add", d, [x, y]);
    var e := Expr("add", [V(t.status[x]), V(t.status[y])]);
    RewriteCanonical(t, [x, y]);
    assert Canonicalise(t, i) == (i, t);
    SumKey(t, d, x, y);
    StepKnownArgs(t, i, d, e);
  }

  /** The key of `d = add x y` when both operands are numbered already. */
  lemma SumKey(t: Table, d: string, x: string, y: string)
    requires Valid(t) && x in t.status && y in t.status
    ensures GetExpr("add", OpI("add", d, [x, y]), t) == Ok((Expr("add", [V(t.status[x]), V(t.status[y])]), t))
  {
    EnsureKnown(t, [x, y]);
    var ids := EnsureAll(t, [x, y]).0;
    assert ids == [t.status[x], t.status[y]];
    assert IterArgs(OpI("add", d, [x, y]).args) == Ok([x, y]);
    assert seq(|ids|, k requires 0 <= k < |ids| => V(ids[k])) == [V(t.status[x]), V(t.status[y])];
  }

  /** A step whose rewrite and key leave the table as it was goes straight to the memo lookup. */
  lemma StepKnownArgs(t: Table, i: Instr, d: string, e: Expr)
    requires Valid(t) && !Skipped(i) && i.dest == Some(Str(d))
    requires Canonicalise(t, i) == (i, t)
    requires GetExpr(i.op.value, i, t) == Ok((e, t))
    ensures Step(t, i) == Next(Memoise(t, i, d, e).0, Memoise(t, i, d, e).1)
  {
  }

  /**
    `c = add a b; d = add b a` with `a` and `b` holding different numbers:
    operands are not sorted, so the second sum is not recognised; it stays
    as written and `d` gets a fresh number.
   */
  lemma OperandOrderMatters(t: Table, a: string, b: string, c: string, d: string)
    requires Valid(t) && a in t.status && b in t.status && t.status[a] != t.status[b]
    requires t.id2canon[t.status[a]] == a && t.id2canon[t.status[b]] == b
    requires c != a && c != b
    requires Expr("add", [V(t.status[a]), V(t.status[b])]) !in t.expr2id
    requires Expr("add", [V(t.status[b]), V(t.status[a])]) !in t.expr2id
    ensures Step(t, OpI("add", c, [a, b])).Next?
    ensures var t1 := Step(t, OpI("add", c, [a, b])).t;
            && Step(t1, OpI("add", d, [b, a])).Next?
            && Step(t1, OpI("add", d, [b, a])).x == OpI("add", d, [b, a])
            && Step(t1, OpI("add", d, [b, a])).t.status[d] == t1.nextId
  {
    SumMiss(t, c, a, b);
    var n := t.nextId;
    var t1 := Table(t.expr2id[Expr("add", [V(t.status[a]), V(t.status[b])]) := n],
                    t.id2canon[n := c], t.status[c := n], n + 1);
    assert Step(t, OpI("add", c, [a, b])).t == t1;
    FirstSumTable(t, c, a, b);
    SumMiss(t1, d, b, a);
  }

  lemma FirstSumTable(t: Table, c: string, a: string, b: string)
    requires Valid(t) && a in t.status && b in t.status && t.status[a] != t.status[b]
    requires t.id2canon[t.status[a]] == a && t.id2canon[t.status[b]] == b
    requires c != a && c != b
    requires Expr("add", [V(t.status[a]), V(t.status[b])]) !in t.expr2id
    requires Expr("add", [V(t.status[b]), V(t.status[a])]) !in t.expr2id
    ensures var t1 := Table(t.expr2id[Expr("add", [V(t.status[a]), V(t.status[b])]) := t.nextId],
                            t.id2canon[t.nextId := c], t.status[c := t.nextId], t.nextId + 1);
            && Valid(t1) && a in t1.status && b in t1.status
            && t1.status[a] == t.status[a] && t1.status[b] == t.status[b]
            && t1.id2canon[t1.status[a]] == a && t1.id2canon[t1.status[b]] == b
            && Expr("add", [V(t1.status[b]), V(t1.status[a])]) !in t1.expr2id
  {
    assert Expr("add", [V(t.status[b]), V(t.status[a])]) != Expr("add", [V(t.status[a]), V(t.status[b])]);
  }
}
