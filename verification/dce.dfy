/**
  Dead-code elimination of briltool/passes/dce.py.

  `simple_dce` works on the whole function: it collects every argument name
  read anywhere, drops every instruction whose string destination is not
  among them, and repeats until a round drops nothing.  `local_dce` works
  on one block: it scans a snapshot of the block, keeping for each variable
  the latest write not yet read (a candidate), and deletes a candidate when
  the variable is written again; it too repeats until a scan deletes
  nothing.  The repeat loops become recursive functions whose measure is
  the number of instructions.
 */
module Dce {
  import opened Common
  import opened OrderedMap
  import opened Ir

  // ---------------------------------------------------------------------
  // simple_dce
  // ---------------------------------------------------------------------

  /** The variables an instruction stream reads, through `get_args`. */
  function ArgsOf(b: seq<Instr>): set<string>
    decreases |b|
  {
    if |b| == 0 then {} else (set a | a in GetArgs(b[0])) + ArgsOf(b[1..])
  }

  /** `used`: the variables read anywhere in the function. */
  function UsedVars(lm: ODict<string, seq<Instr>>): set<string>
    decreases |lm|
  {
    if |lm| == 0 then {} else UsedVars(lm[..|lm| - 1]) + ArgsOf(lm[|lm| - 1].1)
  }

  /** An instruction a sweep keeps: it has no string destination, or its destination is read. */
  predicate Live(i: Instr, used: set<string>) {
    GetDest(i).None? || GetDest(i).value in used
  }

  /** The instructions of a block that a sweep with `used` keeps, in their order. */
  function KeepLive(b: seq<Instr>, used: set<string>): (r: seq<Instr>)
    ensures |r| <= |b|
    ensures forall k :: 0 <= k < |r| ==> Live(r[k], used)
    decreases |b|
  {
    if |b| == 0 then []
    else (if Live(b[0], used) then [b[0]] else []) + KeepLive(b[1..], used)
  }

  /** One round of the block loop: every block swept with the same `used`. */
  function Sweep(lm: ODict<string, seq<Instr>>, used: set<string>): (r: ODict<string, seq<Instr>>)
    ensures |r| == |lm|
    ensures forall i :: 0 <= i < |lm| ==> r[i] == (lm[i].0, KeepLive(lm[i].1, used))
  {
    seq(|lm|, i requires 0 <= i < |lm| => (lm[i].0, KeepLive(lm[i].1, used)))
  }

  /** Total number of instructions in the function. */
  function Size(lm: ODict<string, seq<Instr>>): nat
    decreases |lm|
  {
    if |lm| == 0 then 0 else Size(lm[..|lm| - 1]) + |lm[|lm| - 1].1|
  }

  /**
    `simple_dce`: sweep with the current `used`; a round that removed
    something (`repeat = True`) is followed by another round.
   */
  function SimpleDce(lm: ODict<string, seq<Instr>>): ODict<string, seq<Instr>>
    decreases Size(lm)
  {
    var r := Sweep(lm, UsedVars(lm));
    SweepSize(lm, UsedVars(lm));
    if Size(r) == Size(lm) then r else SimpleDce(r)
  }

  /** A sweep never adds instructions, and removes one exactly when it changes something. */
  lemma {:induction false} SweepSize(lm: ODict<string, seq<Instr>>, used: set<string>)
    ensures Size(Sweep(lm, used)) <= Size(lm)
    ensures Size(Sweep(lm, used)) == Size(lm) ==> Sweep(lm, used) == lm
    decreases |lm|
  {
    if |lm| > 0 {
      var init := lm[..|lm| - 1];
      SweepSize(init, used);
      assert Sweep(lm, used)[..|lm| - 1] == Sweep(init, used);
      var r := Sweep(lm, used);
      KeepLiveSize(lm[|lm| - 1].1, used);
      if Size(r) == Size(lm) {
        assert r == Sweep(init, used) + [r[|lm| - 1]];
        assert lm == init + [lm[|lm| - 1]];
      }
    }
  }

  lemma {:induction false} KeepLiveSize(b: seq<Instr>, used: set<string>)
    ensures |KeepLive(b, used)| == |b| ==> KeepLive(b, used) == b
    decreases |b|
  {
    if |b| > 0 {
      KeepLiveSize(b[1..], used);
      assert b == [b[0]] + b[1..];
    }
  }

  /** A sweep with `used` after a sweep with a larger set is the same as the second sweep alone. */
  lemma {:induction false} KeepLiveCompose(b: seq<Instr>, u1: set<string>, u2: set<string>)
    requires u2 <= u1
    ensures KeepLive(KeepLive(b, u1), u2) == KeepLive(b, u2)
    decreases |b|
  {
    if |b| > 0 {
      KeepLiveCompose(b[1..], u1, u2);
      var h := if Live(b[0], u1) then [b[0]] else [];
      assert KeepLive(b, u1) == h + KeepLive(b[1..], u1);
      KeepLiveAppend(h, KeepLive(b[1..], u1), u2);
    }
  }

  lemma {:induction false} KeepLiveAppend(a: seq<Instr>, b: seq<Instr>, used: set<string>)
    ensures KeepLive(a + b, used) == KeepLive(a, used) + KeepLive(b, used)
    decreases |a|
  {
    if |a| > 0 {
      KeepLiveAppend(a[1..], b, used);
      assert (a + b)[1..] == a[1..] + b;
      assert (a + b)[0] == a[0];
    } else {
      assert a + b == b;
    }
  }

  /** A stream whose instructions are all live is kept whole. */
  lemma {:induction false} KeepLiveAll(b: seq<Instr>, used: set<string>)
    requires forall k :: 0 <= k < |b| ==> Live(b[k], used)
    ensures KeepLive(b, used) == b
    decreases |b|
  {
    if |b| > 0 {
      KeepLiveAll(b[1..], used);
    }
  }

  /** Removing instructions never adds a read. */
  lemma {:induction false} ArgsKeepLive(b: seq<Instr>, used: set<string>)
    ensures ArgsOf(KeepLive(b, used)) <= ArgsOf(b)
    decreases |b|
  {
    if |b| > 0 {
      ArgsKeepLive(b[1..], used);
      var h := if Live(b[0], used) then [b[0]] else [];
      assert KeepLive(b, used) == h + KeepLive(b[1..], used);
      ArgsAppend(h, KeepLive(b[1..], used));
    }
  }

  lemma {:induction false} ArgsAppend(a: seq<Instr>, b: seq<Instr>)
    ensures ArgsOf(a + b) == ArgsOf(a) + ArgsOf(b)
    decreases |a|
  {
    if |a| > 0 {
      ArgsAppend(a[1..], b);
      assert (a + b)[1..] == a[1..] + b;
      assert (a + b)[0] == a[0];
    } else {
      assert a + b == b;
    }
  }

  lemma {:induction false} UsedSweep(lm: ODict<string, seq<Instr>>, used: set<string>)
    ensures UsedVars(Sweep(lm, used)) <= UsedVars(lm)
    decreases |lm|
  {
    if |lm| > 0 {
      var init := lm[..|lm| - 1];
      UsedSweep(init, used);
      assert Sweep(lm, used)[..|lm| - 1] == Sweep(init, used);
      ArgsKeepLive(lm[|lm| - 1].1, used);
    }
  }

  /** `used` holds exactly the names some instruction of the function reads. */
  lemma {:induction false} UsedVarsSpec(lm: ODict<string, seq<Instr>>, v: string)
    ensures v in UsedVars(lm) <==>
              exists i, k :: 0 <= i < |lm| && 0 <= k < |lm[i].1| && v in GetArgs(lm[i].1[k])
    decreases |lm|
  {
    if |lm| > 0 {
      var init := lm[..|lm| - 1];
      UsedVarsSpec(init, v);
      ArgsOfSpec(lm[|lm| - 1].1, v);
      if v in UsedVars(init) {
        var i, k :| 0 <= i < |init| && 0 <= k < |init[i].1| && v in GetArgs(init[i].1[k]);
        assert lm[i] == init[i];
      }
      if exists i, k :: 0 <= i < |lm| && 0 <= k < |lm[i].1| && v in GetArgs(lm[i].1[k]) {
        var i, k :| 0 <= i < |lm| && 0 <= k < |lm[i].1| && v in GetArgs(lm[i].1[k]);
        if i < |init| {
          assert init[i] == lm[i];
        }
      }
    }
  }

  lemma {:induction false} ArgsOfSpec(b: seq<Instr>, v: string)
    ensures v in ArgsOf(b) <==> exists k :: 0 <= k < |b| && v in GetArgs(b[k])
    decreases |b|
  {
    if |b| > 0 {
      ArgsOfSpec(b[1..], v);
      if exists k :: 0 <= k < |b| && v in GetArgs(b[k]) {
        var k :| 0 <= k < |b| && v in GetArgs(b[k]);
        if k > 0 {
          assert b[1..][k - 1] == b[k];
        }
      }
      if v in ArgsOf(b[1..]) {
        var k :| 0 <= k < |b[1..]| && v in GetArgs(b[1..][k]);
        assert b[k + 1] == b[1..][k];
      }
    }
  }

  /**
    What `simple_dce` leaves: every block key in place, and in each block
    exactly the original instructions that have no string destination or
    whose destination is read somewhere in the final function, in their
    original order.  In particular every remaining definition is read.
   */
  lemma {:induction false} SimpleDceSpec(lm: ODict<string, seq<Instr>>)
    ensures |SimpleDce(lm)| == |lm|
    ensures forall i :: 0 <= i < |lm| ==>
              SimpleDce(lm)[i].0 == lm[i].0 &&
              SimpleDce(lm)[i].1 == KeepLive(lm[i].1, UsedVars(SimpleDce(lm)))
    ensures UsedVars(SimpleDce(lm)) <= UsedVars(lm)
    decreases Size(lm)
  {
    var u := UsedVars(lm);
    var m := Sweep(lm, u);
    SweepSize(lm, u);
    UsedSweep(lm, u);
    if Size(m) != Size(lm) {
      SimpleDceSpec(m);
      var r := SimpleDce(m);
      forall i | 0 <= i < |lm| ensures r[i].1 == KeepLive(lm[i].1, UsedVars(r)) {
        KeepLiveCompose(lm[i].1, u, UsedVars(r));
      }
    } else {
      forall i | 0 <= i < |lm| ensures m[i].1 == KeepLive(lm[i].1, UsedVars(m)) {
        assert m == lm;
      }
    }
  }

  /**
    After `simple_dce` every remaining instruction with a string
    destination has that destination read by a remaining instruction, so a
    second run changes nothing.
   */
  lemma SimpleDceFixpoint(lm: ODict<string, seq<Instr>>)
    ensures forall i, k :: 0 <= i < |SimpleDce(lm)| && 0 <= k < |SimpleDce(lm)[i].1| ==>
              Live(SimpleDce(lm)[i].1[k], UsedVars(SimpleDce(lm)))
    ensures SimpleDce(SimpleDce(lm)) == SimpleDce(lm)
  {
    var r := SimpleDce(lm);
    SimpleDceSpec(lm);
    forall i | 0 <= i < |r| ensures KeepLive(r[i].1, UsedVars(r)) == r[i].1 {
      KeepLiveAll(r[i].1, UsedVars(r));
    }
    assert Sweep(r, UsedVars(r)) == r;
  }

  /** Instructions without a string destination (jumps, branches, returns, prints) all survive, in order. */
  lemma SimpleDceKeepsEffects(lm: ODict<string, seq<Instr>>)
    ensures |SimpleDce(lm)| == |lm|
    ensures forall i :: 0 <= i < |lm| ==> KeepLive(SimpleDce(lm)[i].1, {}) == KeepLive(lm[i].1, {})
  {
    SimpleDceSpec(lm);
    var r := SimpleDce(lm);
    forall i | 0 <= i < |lm| ensures KeepLive(r[i].1, {}) == KeepLive(lm[i].1, {}) {
      KeepLiveCompose(lm[i].1, UsedVars(r), {});
    }
  }

  // ---------------------------------------------------------------------
  // local_dce
  // ---------------------------------------------------------------------

  /** `block.remove(v)`: deletes the first element equal to v (a missing v is reported by the lemmas, never reached). */
  function RemoveFirst(b: seq<Instr>, v: Instr): (r: seq<Instr>)
    ensures v in b ==> multiset(r) == multiset(b) - multiset{v}
    ensures v !in b ==> r == b
    decreases |b|
  {
    if |b| == 0 then []
    else
      assert b == [b[0]] + b[1..];
      if b[0] == v then b[1..] else [b[0]] + RemoveFirst(b[1..], v)
  }

  /** The deleted element is the first one equal to v; the others keep their order. */
  lemma {:induction false} RemoveFirstSplit(b: seq<Instr>, v: Instr)
    ensures v in b ==> exists p, q :: b == p + [v] + q && v !in p && RemoveFirst(b, v) == p + q
    decreases |b|
  {
    if v in b {
      assert b == [b[0]] + b[1..];
      if b[0] == v {
        assert b == [] + [v] + b[1..];
      } else {
        var t := RemoveFirst(b[1..], v);
        assert RemoveFirst(b, v) == [b[0]] + t;
        RemoveFirstSplit(b[1..], v);
        RemoveFirstCons(b[0], b[1..], v, t);
      }
    }
  }

  /** Deleting from the tail of a sequence whose head differs from v deletes the same occurrence from the whole. */
  lemma RemoveFirstCons(x: Instr, t: seq<Instr>, v: Instr, rt: seq<Instr>)
    requires x != v
    requires v in t ==> exists p, q :: t == p + [v] + q && v !in p && rt == p + q
    ensures v in [x] + t ==> exists p, q :: [x] + t == p + [v] + q && v !in p && [x] + rt == p + q
  {
    if v in [x] + t {
      var p, q :| t == p + [v] + q && v !in p && rt == p + q;
      assert [x] + t == ([x] + p) + [v] + q;
      assert [x] + rt == ([x] + p) + q;
    }
  }

  /**
    The state of one scan over the snapshot `s` of a block: the block as
    edited so far, `candidates`, and `repeat`.  Two bookkeeping components
    record where things come from: `at` maps each candidate's variable to
    the snapshot position of the candidate instruction, and `removed`
    holds the positions whose instruction has been passed to `remove`.
   */
  datatype ScanState = ScanState(
    block: seq<Instr>,
    cands: map<string, Instr>,
    hit: bool,
    at: map<string, nat>,
    removed: set<nat>
  )

  /** The names an instruction reads, as a set. */
  function Reads(x: Instr): set<string> {
    set a | a in GetArgs(x)
  }

  /** One iteration over the snapshot: reads kill candidates, then a write to a candidate's variable removes it. */
  function ScanStep(s: seq<Instr>, st: ScanState, i: nat): ScanState
    requires i < |s|
  {
    var c := st.cands - Reads(s[i]);
    var a := st.at - Reads(s[i]);
    match GetDest(s[i])
    case None => st.(cands := c, at := a)
    case Some(d) =>
      if d in c then
        ScanState(RemoveFirst(st.block, c[d]), c[d := s[i]], true,
                  a[d := i], if d in a then st.removed + {a[d]} else st.removed)
      else st.(cands := c[d := s[i]], at := a[d := i])
  }

  function ScanUpTo(s: seq<Instr>, n: nat): ScanState
    requires n <= |s|
    decreases n
  {
    if n == 0 then ScanState(s, map[], false, map[], {}) else ScanStep(s, ScanUpTo(s, n - 1), n - 1)
  }

  /** One scan of `local_dce` over a snapshot of the block. */
  function LocalScan(s: seq<Instr>): ScanState {
    ScanUpTo(s, |s|)
  }

  /**
    `local_dce`: scan; if the scan removed something, scan the edited block
    again.
   */
  function LocalDce(b: seq<Instr>): seq<Instr>
    decreases |b|
  {
    var st := LocalScan(b);
    LocalScanSpec(b);
    if st.hit then LocalDce(st.block) else st.block
  }

  // The declarative reading of a scan

  /** Position j writes a variable that is written again at or before position k, with no read in between. */
  predicate OverwrittenBy(s: seq<Instr>, j: nat, k: nat)
    requires j < k < |s|
  {
    && GetDest(s[j]).Some?
    && GetDest(s[k]) == GetDest(s[j])
    && forall m :: j < m <= k ==> GetDest(s[j]).value !in GetArgs(s[m])
  }

  /** A dead store: the write at j is overwritten before position n without being read. */
  predicate DeadBefore(s: seq<Instr>, j: nat, n: nat)
    requires j < |s| && n <= |s|
  {
    exists k :: j < k < n && OverwrittenBy(s, j, k)
  }

  /** No write of the block is overwritten before being read. */
  predicate NoDeadStore(s: seq<Instr>) {
    forall j :: 0 <= j < |s| ==> !DeadBefore(s, j, |s|)
  }

  /** The write at p to d is neither read nor repeated at positions p+1 .. n-1. */
  predicate Pending(s: seq<Instr>, d: string, p: nat, n: nat)
    requires p < n <= |s|
  {
    forall m :: p < m < n ==> d !in GetArgs(s[m]) && GetDest(s[m]) != Some(d)
  }

  /** The snapshot without the instructions at the given positions. */
  function Drop(s: seq<Instr>, r: set<nat>): seq<Instr>
    decreases |s|
  {
    if |s| == 0 then [] else Drop(s[..|s| - 1], r) + (if |s| - 1 in r then [] else [s[|s| - 1]])
  }

  /** The dead stores of the snapshot among positions below n. */
  function DeadSet(s: seq<Instr>, n: nat): set<nat>
    requires n <= |s|
  {
    set j | 0 <= j < n && DeadBefore(s, j, n)
  }

  /** The write at j is still pending just before position n. */
  predicate PendingWrite(s: seq<Instr>, j: nat, n: nat)
    requires j < n <= |s|
  {
    GetDest(s[j]).Some? && Pending(s, GetDest(s[j]).value, j, n)
  }

  /** The candidate of d is its pending write, an instruction of the snapshot not yet removed. */
  predicate CandEntry(s: seq<Instr>, n: nat, st: ScanState, d: string)
    requires n <= |s|
  {
    && d in st.cands && d in st.at
    && st.at[d] < n && st.at[d] !in st.removed && st.cands[d] == s[st.at[d]]
    && GetDest(s[st.at[d]]) == Some(d) && Pending(s, d, st.at[d], n)
  }

  /** The candidate table after n iterations. */
  predicate CandsInv(s: seq<Instr>, n: nat, st: ScanState)
    requires n <= |s|
  {
    && st.cands.Keys == st.at.Keys
    && (forall d :: d in st.at ==> CandEntry(s, n, st, d))
    && (forall j :: 0 <= j < n && PendingWrite(s, j, n) ==> GetDest(s[j]).value in st.at)
  }

  /** The edits after n iterations. */
  predicate EditInv(s: seq<Instr>, n: nat, st: ScanState)
    requires n <= |s|
  {
    && (forall p :: p in st.removed ==> p < n)
    && multiset(st.block) == multiset(Drop(s, st.removed))
    && (st.hit <==> st.removed != {})
    && (!st.hit ==> st.block == s)
    && KeepLive(st.block, {}) == KeepLive(s, {})
  }

  lemma {:induction false} ScanInv(s: seq<Instr>, n: nat)
    requires n <= |s|
    ensures CandsInv(s, n, ScanUpTo(s, n))
    ensures EditInv(s, n, ScanUpTo(s, n))
    ensures ScanUpTo(s, n).removed == DeadSet(s, n)
    decreases n
  {
    if n == 0 {
      DropNone(s);
    } else {
      ScanInv(s, n - 1);
      var st := ScanUpTo(s, n - 1);
      StepCands(s, n - 1, st);
      StepEdits(s, n - 1, st);
      StepRemoved(s, n - 1, n, st);
    }
  }

  /** The state after one step, spelled out case by case. */
  lemma StepShape(s: seq<Instr>, st: ScanState, i: nat)
    requires i < |s|
    ensures var st' := ScanStep(s, st, i);
            var c := st.cands - Reads(s[i]);
            var a := st.at - Reads(s[i]);
            && (GetDest(s[i]).None? ==> st' == st.(cands := c, at := a))
            && (GetDest(s[i]).Some? && GetDest(s[i]).value !in c ==>
                  st' == st.(cands := c[GetDest(s[i]).value := s[i]], at := a[GetDest(s[i]).value := i]))
            && (GetDest(s[i]).Some? && GetDest(s[i]).value in c ==>
                  st'.block == RemoveFirst(st.block, c[GetDest(s[i]).value]) && st'.hit &&
                  st'.cands == c[GetDest(s[i]).value := s[i]] && st'.at == a[GetDest(s[i]).value := i] &&
                  st'.removed == (if GetDest(s[i]).value in a then st.removed + {a[GetDest(s[i]).value]} else st.removed))
  {
  }

  lemma StepCands(s: seq<Instr>, i: nat, st: ScanState)
    requires i < |s|
    requires CandsInv(s, i, st)
    requires forall p :: p in st.removed ==> p < i
    ensures CandsInv(s, i + 1, ScanStep(s, st, i))
  {
    var st' := ScanStep(s, st, i);
    StepShape(s, st, i);
    forall d | d in st'.at ensures CandEntry(s, i + 1, st', d) {
      StepEntry(s, i, st, d);
    }
    forall j | 0 <= j < i + 1 && PendingWrite(s, j, i + 1) ensures GetDest(s[j]).value in st'.at {
      StepPending(s, i, st, j);
    }
  }

  lemma StepEntry(s: seq<Instr>, i: nat, st: ScanState, d: string)
    requires i < |s|
    requires CandsInv(s, i, st)
    requires forall p :: p in st.removed ==> p < i
    requires d in ScanStep(s, st, i).at
    ensures CandEntry(s, i + 1, ScanStep(s, st, i), d)
  {
    var st' := ScanStep(s, st, i);
    var a := st.at - Reads(s[i]);
    StepShape(s, st, i);
    if GetDest(s[i]) != Some(d) {
      assert d in a && st'.at[d] == a[d];
      assert CandEntry(s, i, st, d);
      if GetDest(s[i]).Some? && GetDest(s[i]).value in a {
        assert CandEntry(s, i, st, GetDest(s[i]).value);
        assert a[GetDest(s[i]).value] != a[d];
      }
    }
  }

  lemma StepPending(s: seq<Instr>, i: nat, st: ScanState, j: nat)
    requires i < |s|
    requires CandsInv(s, i, st)
    requires j < i + 1 && PendingWrite(s, j, i + 1)
    ensures GetDest(s[j]).value in ScanStep(s, st, i).at
  {
    StepShape(s, st, i);
    if j < i {
      assert PendingWrite(s, j, i);
      assert GetDest(s[j]).value !in Reads(s[i]);
    }
  }

  lemma StepEdits(s: seq<Instr>, i: nat, st: ScanState)
    requires i < |s|
    requires CandsInv(s, i, st)
    requires EditInv(s, i, st)
    ensures EditInv(s, i + 1, ScanStep(s, st, i))
  {
    var c := st.cands - Reads(s[i]);
    StepShape(s, st, i);
    if GetDest(s[i]).Some? && GetDest(s[i]).value in c {
      var d := GetDest(s[i]).value;
      assert CandEntry(s, i, st, d);
      EditRemove(s, i, st, ScanStep(s, st, i), st.at[d]);
    }
  }

  /** Removing the candidate at snapshot position p keeps the edit invariant. */
  lemma EditRemove(s: seq<Instr>, i: nat, st: ScanState, st': ScanState, p: nat)
    requires i < |s|
    requires forall q :: q in st.removed ==> q < i
    requires multiset(st.block) == multiset(Drop(s, st.removed))
    requires KeepLive(st.block, {}) == KeepLive(s, {})
    requires p < i && p !in st.removed && GetDest(s[p]).Some?
    requires st'.block == RemoveFirst(st.block, s[p]) && st'.hit && st'.removed == st.removed + {p}
    ensures forall q :: q in st'.removed ==> q < i + 1
    ensures multiset(st'.block) == multiset(Drop(s, st'.removed))
    ensures KeepLive(st'.block, {}) == KeepLive(s, {})
  {
    RemovedBound(st.removed, p, i);
    RemoveMultiset(s, st.block, st.removed, p);
    RemoveFirstEffects(st.block, s[p]);
  }

  lemma RemovedBound(r: set<nat>, p: nat, i: nat)
    requires forall q :: q in r ==> q < i
    requires p < i
    ensures forall q :: q in r + {p} ==> q < i + 1
  {
  }

  lemma RemoveMultiset(s: seq<Instr>, b: seq<Instr>, r: set<nat>, p: nat)
    requires p < |s| && p !in r
    requires multiset(b) == multiset(Drop(s, r))
    ensures s[p] in b
    ensures multiset(RemoveFirst(b, s[p])) == multiset(Drop(s, r + {p}))
  {
    DropRemove(s, r, p);
    assert s[p] in multiset(b);
  }

  lemma StepRemoved(s: seq<Instr>, i: nat, n: nat, st: ScanState)
    requires n == i + 1 <= |s|
    requires CandsInv(s, i, st)
    requires st.removed == DeadSet(s, i)
    ensures ScanStep(s, st, i).removed == DeadSet(s, n)
  {
    var st' := ScanStep(s, st, i);
    forall j | 0 <= j < n
      ensures j in st'.removed <==> DeadBefore(s, j, n)
    {
      if j < i {
        if DeadBefore(s, j, n) && !DeadBefore(s, j, i) {
          DeadAtStep(s, i, st, j);
        }
        if j in st'.removed && j !in st.removed {
          RemovedAtStep(s, i, st, j);
        }
      } else {
        assert !DeadBefore(s, j, n);
      }
    }
  }

  /** A write that becomes dead at step i is the candidate the step removes. */
  lemma DeadAtStep(s: seq<Instr>, i: nat, st: ScanState, j: nat)
    requires j < i < |s|
    requires CandsInv(s, i, st)
    requires DeadBefore(s, j, i + 1) && !DeadBefore(s, j, i)
    ensures j in ScanStep(s, st, i).removed
  {
    var d := GetDest(s[j]).value;
    var a := st.at - Reads(s[i]);
    StepShape(s, st, i);
    assert OverwrittenBy(s, j, i);
    forall m | j < m < i ensures d !in GetArgs(s[m]) && GetDest(s[m]) != Some(d) {
      if GetDest(s[m]) == Some(d) {
        assert OverwrittenBy(s, j, m);
      }
    }
    assert PendingWrite(s, j, i);
    assert CandEntry(s, i, st, d);
    assert d in a && a[d] == j;
  }

  /** A position the step removes is a write overwritten at i without a read in between. */
  lemma RemovedAtStep(s: seq<Instr>, i: nat, st: ScanState, j: nat)
    requires j < i < |s|
    requires CandsInv(s, i, st)
    requires j in ScanStep(s, st, i).removed && j !in st.removed
    ensures DeadBefore(s, j, i + 1)
  {
    var a := st.at - Reads(s[i]);
    StepShape(s, st, i);
    var d := GetDest(s[i]).value;
    assert d in a && a[d] == j;
    assert CandEntry(s, i, st, d);
    assert OverwrittenBy(s, j, i);
  }

  /** Removing one more position from the snapshot removes one copy of its instruction. */
  lemma {:induction false} DropRemove(s: seq<Instr>, r: set<nat>, p: nat)
    requires p < |s| && p !in r
    ensures s[p] in multiset(Drop(s, r))
    ensures multiset(Drop(s, r + {p})) == multiset(Drop(s, r)) - multiset{s[p]}
    decreases |s|
  {
    if p < |s| - 1 {
      DropRemove(s[..|s| - 1], r, p);
      DropRemoveInner(s, r, p);
    } else {
      DropRemoveLast(s, r);
    }
  }

  lemma DropRemoveInner(s: seq<Instr>, r: set<nat>, p: nat)
    requires p < |s| - 1 && p !in r
    requires s[p] in multiset(Drop(s[..|s| - 1], r))
    requires multiset(Drop(s[..|s| - 1], r + {p})) == multiset(Drop(s[..|s| - 1], r)) - multiset{s[p]}
    ensures s[p] in multiset(Drop(s, r))
    ensures multiset(Drop(s, r + {p})) == multiset(Drop(s, r)) - multiset{s[p]}
  {
    var tail := if |s| - 1 in r then [] else [s[|s| - 1]];
    assert Drop(s, r) == Drop(s[..|s| - 1], r) + tail;
    assert Drop(s, r + {p}) == Drop(s[..|s| - 1], r + {p}) + tail;
  }

  lemma DropRemoveLast(s: seq<Instr>, r: set<nat>)
    requires |s| > 0 && |s| - 1 !in r
    ensures s[|s| - 1] in multiset(Drop(s, r))
    ensures multiset(Drop(s, r + {|s| - 1})) == multiset(Drop(s, r)) - multiset{s[|s| - 1]}
  {
    var init := s[..|s| - 1];
    DropSame(init, r, r + {|s| - 1});
    assert Drop(s, r + {|s| - 1}) == Drop(init, r);
    assert Drop(s, r) == Drop(init, r) + [s[|s| - 1]];
  }

  /** Dropping no position keeps the snapshot. */
  lemma {:induction false} DropNone(s: seq<Instr>)
    ensures Drop(s, {}) == s
    decreases |s|
  {
    if |s| > 0 {
      DropNone(s[..|s| - 1]);
    }
  }

  lemma {:induction false} DropSame(s: seq<Instr>, r1: set<nat>, r2: set<nat>)
    requires forall k :: 0 <= k < |s| ==> (k in r1 <==> k in r2)
    ensures Drop(s, r1) == Drop(s, r2)
    decreases |s|
  {
    if |s| > 0 {
      DropSame(s[..|s| - 1], r1, r2);
    }
  }

  /** `remove` deletes an instruction equal to one that writes, so the non-writing instructions stay. */
  lemma {:induction false} RemoveFirstEffects(b: seq<Instr>, v: Instr)
    requires GetDest(v).Some?
    ensures KeepLive(RemoveFirst(b, v), {}) == KeepLive(b, {})
    decreases |b|
  {
    if |b| > 0 && b[0] != v {
      RemoveFirstEffects(b[1..], v);
      assert ([b[0]] + RemoveFirst(b[1..], v))[1..] == RemoveFirst(b[1..], v);
    }
  }

  /** Dropping positions inside the snapshot shortens it. */
  lemma {:induction false} DropSize(s: seq<Instr>, r: set<nat>)
    ensures |Drop(s, r)| <= |s|
    ensures (exists p :: p in r && p < |s|) ==> |Drop(s, r)| < |s|
    decreases |s|
  {
    if |s| > 0 {
      DropSize(s[..|s| - 1], r);
    }
  }

  /**
    One scan removes exactly the dead stores of the snapshot: a write is
    removed when the same variable is written again later in the block
    with no read in between (the overwriting instruction's own reads
    count, as reads are processed first).  `repeat` is set exactly when
    something was removed, and then the block has become shorter.
   */
  lemma LocalScanSpec(s: seq<Instr>)
    ensures LocalScan(s).removed == DeadSet(s, |s|)
    ensures multiset(LocalScan(s).block) == multiset(Drop(s, LocalScan(s).removed))
    ensures LocalScan(s).hit <==> exists j :: 0 <= j < |s| && DeadBefore(s, j, |s|)
    ensures LocalScan(s).hit ==> |LocalScan(s).block| < |s|
    ensures !LocalScan(s).hit ==> LocalScan(s).block == s
    ensures KeepLive(LocalScan(s).block, {}) == KeepLive(s, {})
  {
    ScanInv(s, |s|);
    var st := LocalScan(s);
    if st.hit {
      var p :| p in st.removed;
      DropSize(s, st.removed);
      assert |multiset(st.block)| == |multiset(Drop(s, st.removed))|;
    }
    if exists j :: 0 <= j < |s| && DeadBefore(s, j, |s|) {
      var j :| 0 <= j < |s| && DeadBefore(s, j, |s|);
      assert j in DeadSet(s, |s|);
    }
  }

  /**
    `block.remove(candidate)` never raises: the instruction it is asked to
    delete is always still in the block.
   */
  lemma ScanRemovesPresent(s: seq<Instr>, i: nat)
    requires i < |s|
    ensures var st := ScanUpTo(s, i);
            var c := st.cands - Reads(s[i]);
            GetDest(s[i]).Some? && GetDest(s[i]).value in c ==> c[GetDest(s[i]).value] in st.block
  {
    ScanInv(s, i);
    var st := ScanUpTo(s, i);
    var c := st.cands - Reads(s[i]);
    if GetDest(s[i]).Some? && GetDest(s[i]).value in c {
      var p := st.at[GetDest(s[i]).value];
      DropRemove(s, st.removed, p);
      assert c[GetDest(s[i]).value] in multiset(st.block);
    }
  }

  /**
    What `local_dce` leaves: a block in which no write is overwritten
    before being read, made of instructions of the original block (as a
    multiset), with every instruction that has no string destination kept
    in its original order.
   */
  lemma {:induction false} LocalDceSpec(b: seq<Instr>)
    ensures NoDeadStore(LocalDce(b))
    ensures multiset(LocalDce(b)) <= multiset(b)
    ensures KeepLive(LocalDce(b), {}) == KeepLive(b, {})
    ensures Subseq(LocalDce(b), b)
    decreases |b|
  {
    LocalDceSubseq(b);
    var st := LocalScan(b);
    LocalScanSpec(b);
    if st.hit {
      LocalDceSpec(st.block);
      DropSub(b, st.removed);
    } else {
      assert NoDeadStore(b);
    }
  }

  /** `remove` keeps the other instructions in their order. */
  lemma RemoveFirstSubseq(b: seq<Instr>, v: Instr)
    ensures Subseq(RemoveFirst(b, v), b)
  {
    var r := RemoveFirst(b, v);
    RemoveFirstSplit(b, v);
    if v in b {
      var p, q :| b == p + [v] + q && v !in p && r == p + q;
      SubseqDelete(p, v, q);
    } else {
      SubseqRefl(b);
    }
  }

  lemma {:induction false} ScanSubseq(s: seq<Instr>, n: nat)
    requires n <= |s|
    ensures Subseq(ScanUpTo(s, n).block, s)
    decreases n
  {
    if n == 0 {
      SubseqRefl(s);
    } else {
      var st := ScanUpTo(s, n - 1);
      ScanSubseq(s, n - 1);
      StepShape(s, st, n - 1);
      var d := GetDest(s[n - 1]);
      if d.Some? && d.value in st.cands - Reads(s[n - 1]) {
        RemoveFirstSubseq(st.block, (st.cands - Reads(s[n - 1]))[d.value]);
        SubseqTrans(ScanUpTo(s, n).block, st.block, s);
      }
    }
  }

  /** The instructions `local_dce` keeps appear in the block's original order. */
  lemma {:induction false} LocalDceSubseq(b: seq<Instr>)
    ensures Subseq(LocalDce(b), b)
    decreases |b|
  {
    var st := LocalScan(b);
    LocalScanSpec(b);
    ScanSubseq(b, |b|);
    if st.hit {
      LocalDceSubseq(st.block);
      SubseqTrans(LocalDce(b), st.block, b);
    }
  }

  lemma {:induction false} DropSub(s: seq<Instr>, r: set<nat>)
    ensures multiset(Drop(s, r)) <= multiset(s)
    decreases |s|
  {
    if |s| > 0 {
      DropSub(s[..|s| - 1], r);
      assert s == s[..|s| - 1] + [s[|s| - 1]];
    }
  }

  // A block on which removal by equality drops the wrong copy

  function ConstX(n: int): Instr {
    Instr(None, Some("const"), Some(Str("x")), None, None, Some(IntLit(n)), [])
  }

  function PrintX(): Instr {
    Instr(None, Some("print"), None, Some(StrList(["x"])), None, None, [])
  }

  lemma FirstScan()
    ensures var s := [ConstX(1), PrintX(), ConstX(1), ConstX(2)];
            LocalScan(s).hit && LocalScan(s).block == [PrintX(), ConstX(1), ConstX(2)]
  {
    var s := [ConstX(1), PrintX(), ConstX(1), ConstX(2)];
    assert Reads(ConstX(1)) == {} && Reads(ConstX(2)) == {};
    assert "x" in Reads(PrintX());
    assert ScanUpTo(s, 1) == ScanState(s, map["x" := ConstX(1)], false, map["x" := 0], {});
    assert ScanUpTo(s, 2) == ScanState(s, map[], false, map[], {});
    assert ScanUpTo(s, 3) == ScanState(s, map["x" := ConstX(1)], false, map["x" := 2], {});
    assert RemoveFirst(s, ConstX(1)) == [PrintX(), ConstX(1), ConstX(2)];
  }

  lemma SecondScan()
    ensures var s := [PrintX(), ConstX(1), ConstX(2)];
            LocalScan(s).hit && LocalScan(s).block == [PrintX(), ConstX(2)]
  {
    var s := [PrintX(), ConstX(1), ConstX(2)];
    assert Reads(ConstX(1)) == {} && Reads(ConstX(2)) == {};
    assert "x" in Reads(PrintX());
    assert ScanUpTo(s, 1) == ScanState(s, map[], false, map[], {});
    assert ScanUpTo(s, 2) == ScanState(s, map["x" := ConstX(1)], false, map["x" := 1], {});
    assert RemoveFirst(s, ConstX(1)) == [PrintX(), ConstX(2)];
  }

  lemma ThirdScan()
    ensures var s := [PrintX(), ConstX(2)];
            !LocalScan(s).hit && LocalScan(s).block == s
  {
    var s := [PrintX(), ConstX(2)];
    assert Reads(ConstX(2)) == {};
    assert "x" in Reads(PrintX());
    assert ScanUpTo(s, 1) == ScanState(s, map[], false, map[], {});
  }

  /**
    `block.remove` deletes by equality.  In `x = const 1; print x;
    x = const 1; x = const 2` the candidate overwritten by `x = const 2` is
    the second `x = const 1`, but the first equal instruction goes; the next
    scan then removes the other copy, and `print x` is left reading a
    variable that nothing in the block defines.
   */
  lemma LocalDceRemovesEqualCopy()
    ensures LocalDce([ConstX(1), PrintX(), ConstX(1), ConstX(2)]) == [PrintX(), ConstX(2)]
  {
    FirstScan();
    SecondScan();
    ThirdScan();
  }

  // ---------------------------------------------------------------------
  // The three DCE passes of the driver
  // ---------------------------------------------------------------------

  /** `local_dce` applied to every block, each on its own. */
  function LocalAll(lm: ODict<string, seq<Instr>>): (r: ODict<string, seq<Instr>>)
    ensures |r| == |lm|
    ensures forall i :: 0 <= i < |lm| ==> r[i] == (lm[i].0, LocalDce(lm[i].1))
  {
    seq(|lm|, i requires 0 <= i < |lm| => (lm[i].0, LocalDce(lm[i].1)))
  }

  /** `dce_local_only`. */
  function DceLocalOnly(b: BlockInfo): BlockInfo {
    b.(labelMap := LocalAll(b.labelMap))
  }

  /** `dce_global_only`. */
  function DceGlobalOnly(b: BlockInfo): BlockInfo {
    b.(labelMap := SimpleDce(b.labelMap))
  }

  /** `dce_both`: `simple_dce`, then `local_dce` on every block. */
  function DceBoth(b: BlockInfo): BlockInfo {
    DceLocalOnly(DceGlobalOnly(b))
  }

  lemma {:induction false} KeepLiveSub(b: seq<Instr>, used: set<string>)
    ensures multiset(KeepLive(b, used)) <= multiset(b)
    decreases |b|
  {
    if |b| > 0 {
      KeepLiveSub(b[1..], used);
      assert b == [b[0]] + b[1..];
    }
  }

  /** What every DCE pass guarantees about each block of the result. */
  predicate DceResult(before: ODict<string, seq<Instr>>, after: ODict<string, seq<Instr>>) {
    && |after| == |before|
    && forall i :: 0 <= i < |before| ==>
         && after[i].0 == before[i].0
         && multiset(after[i].1) <= multiset(before[i].1)
         && KeepLive(after[i].1, {}) == KeepLive(before[i].1, {})
  }

  /**
    `dce_local_only` touches blocks independently and leaves each without
    a dead store; block ids, the other fields and every instruction without
    a string destination stay.
   */
  lemma DceLocalOnlySpec(b: BlockInfo)
    ensures DceLocalOnly(b) == b.(labelMap := DceLocalOnly(b).labelMap)
    ensures DceResult(b.labelMap, DceLocalOnly(b).labelMap)
    ensures forall i :: 0 <= i < |b.labelMap| ==> NoDeadStore(DceLocalOnly(b).labelMap[i].1)
  {
    forall i | 0 <= i < |b.labelMap| ensures NoDeadStore(LocalDce(b.labelMap[i].1)) &&
      multiset(LocalDce(b.labelMap[i].1)) <= multiset(b.labelMap[i].1) &&
      KeepLive(LocalDce(b.labelMap[i].1), {}) == KeepLive(b.labelMap[i].1, {})
    {
      LocalDceSpec(b.labelMap[i].1);
    }
  }

  /** `dce_global_only` leaves every definition read, and is a fixed point of itself. */
  lemma DceGlobalOnlySpec(b: BlockInfo)
    ensures DceResult(b.labelMap, DceGlobalOnly(b).labelMap)
    ensures forall i, k :: 0 <= i < |DceGlobalOnly(b).labelMap| && 0 <= k < |DceGlobalOnly(b).labelMap[i].1| ==>
              Live(DceGlobalOnly(b).labelMap[i].1[k], UsedVars(DceGlobalOnly(b).labelMap))
    ensures DceGlobalOnly(DceGlobalOnly(b)) == DceGlobalOnly(b)
  {
    var lm := b.labelMap;
    SimpleDceSpec(lm);
    SimpleDceFixpoint(lm);
    SimpleDceKeepsEffects(lm);
    forall i | 0 <= i < |lm| ensures multiset(SimpleDce(lm)[i].1) <= multiset(lm[i].1) {
      KeepLiveSub(lm[i].1, UsedVars(SimpleDce(lm)));
    }
  }

  /**
    `dce_both` keeps block ids and instructions without a string
    destination, and leaves no dead store in any block.
   */
  lemma DceBothSpec(b: BlockInfo)
    ensures DceResult(b.labelMap, DceBoth(b).labelMap)
    ensures forall i :: 0 <= i < |b.labelMap| ==> NoDeadStore(DceBoth(b).labelMap[i].1)
  {
    DceGlobalOnlySpec(b);
    DceLocalOnlySpec(DceGlobalOnly(b));
    var m := DceGlobalOnly(b).labelMap;
    var r := DceBoth(b).labelMap;
    forall i | 0 <= i < |b.labelMap| ensures multiset(r[i].1) <= multiset(b.labelMap[i].1) {
      assert multiset(r[i].1) <= multiset(m[i].1);
    }
  }
}
