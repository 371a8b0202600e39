/**
  The pure parts of briltool/driver.py: reading the pass pipeline from the
  command-line flags, de-duplicating it, the pass registry, the per-block
  application of value numbering, and `run_driver`'s validation and
  per-function processing (form blocks, run the passes in order, then
  form the CFG on the result).

  Printing, logging and the JSON rendering are not modelled; a run yields
  its exit code and the processed functions, whose instruction lists
  `output_json_prog` would write (see module Output).
 */
module Driver {
  import opened Common
  import opened OrderedMap
  import opened Ir
  import Blocks
  import Cfg
  import Dce
  import Lvn

  // ---------------------------------------------------------------------
  // parse_pipeline
  // ---------------------------------------------------------------------

  /** Python's `str.isspace` for one character: the code points `str.strip()` removes. */
  predicate IsSpace(c: char) {
    var n := c as int;
    || (9 <= n <= 13) || (28 <= n <= 32) || n == 0x85 || n == 0xA0 || n == 0x1680
    || (0x2000 <= n <= 0x200A) || n == 0x2028 || n == 0x2029 || n == 0x202F || n == 0x205F || n == 0x3000
  }

  /** The number of leading whitespace characters. */
  function Lead(s: string): (n: nat)
    ensures n <= |s|
    ensures forall k :: 0 <= k < n ==> IsSpace(s[k])
    ensures n < |s| ==> !IsSpace(s[n])
    decreases |s|
  {
    if |s| == 0 || !IsSpace(s[0]) then 0
    else
      var n := 1 + Lead(s[1..]);
      assert forall k :: 1 <= k < n ==> s[k] == s[1..][k - 1];
      n
  }

  /** The number of trailing whitespace characters. */
  function Trail(s: string): (n: nat)
    ensures n <= |s|
    ensures forall k :: |s| - n <= k < |s| ==> IsSpace(s[k])
    ensures n < |s| ==> !IsSpace(s[|s| - 1 - n])
    decreases |s|
  {
    if |s| == 0 || !IsSpace(s[|s| - 1]) then 0
    else 1 + Trail(s[..|s| - 1])
  }

  /**
    `str.strip()`: the part of `s` between its leading and its trailing
    whitespace.  The result neither starts nor ends with whitespace, sits
    in `s` at position `Lead(s)`, and everything around it is whitespace.
   */
  function Strip(s: string): (r: string)
    ensures r == [] || (!IsSpace(r[0]) && !IsSpace(r[|r| - 1]))
    ensures Lead(s) + |r| <= |s| && s[Lead(s)..Lead(s) + |r|] == r
    ensures forall k :: 0 <= k < Lead(s) ==> IsSpace(s[k])
    ensures forall k :: Lead(s) + |r| <= k < |s| ==> IsSpace(s[k])
  {
    var t := s[Lead(s)..];
    var r := t[..|t| - Trail(t)];
    StripFacts(s, Lead(s), t, Trail(t), r);
    r
  }

  lemma StripFacts(s: string, n: nat, t: string, m: nat, r: string)
    requires n <= |s| && t == s[n..] && m <= |t| && r == t[..|t| - m]
    requires n < |s| ==> !IsSpace(s[n])
    requires m < |t| ==> !IsSpace(t[|t| - 1 - m])
    requires forall k :: |t| - m <= k < |t| ==> IsSpace(t[k])
    ensures r == [] || (!IsSpace(r[0]) && !IsSpace(r[|r| - 1]))
    ensures n + |r| <= |s| && s[n..n + |r|] == r
    ensures forall k :: n + |r| <= k < |s| ==> IsSpace(s[k])
  {
    if |r| > 0 {
      assert r[0] == s[n];
      assert r[|r| - 1] == t[|t| - 1 - m];
    }
    forall k | n + |r| <= k < |s| ensures IsSpace(s[k]) {
      assert s[k] == t[k - n];
    }
  }

  /** Stripping twice strips nothing more. */
  lemma StripIdempotent(s: string)
    ensures Strip(Strip(s)) == Strip(s)
  {
    var r := Strip(s);
    if |r| > 0 {
      assert Lead(r) == 0;
      assert Trail(r) == 0;
    }
  }

  /** `s.split(",")`: the pieces between commas, always at least one. */
  function Split(s: string): (r: seq<string>)
    ensures |r| >= 1
    decreases |s|
  {
    if |s| == 0 then [""]
    else
      var p := Split(s[..|s| - 1]);
      var c := s[|s| - 1];
      if c == ',' then p + [""] else p[..|p| - 1] + [p[|p| - 1] + [c]]
  }

  /** `",".join(ps)`. */
  function Join(ps: seq<string>): string
    requires |ps| >= 1
    decreases |ps|
  {
    if |ps| == 1 then ps[0] else Join(ps[..|ps| - 1]) + "," + ps[|ps| - 1]
  }

  /** No piece of a split holds a comma, and joining the pieces with commas gives the text back. */
  lemma {:induction false} SplitJoin(s: string)
    ensures forall i :: 0 <= i < |Split(s)| ==> ',' !in Split(s)[i]
    ensures Join(Split(s)) == s
    decreases |s|
  {
    if |s| > 0 {
      var init := s[..|s| - 1];
      var p := Split(init);
      var c := s[|s| - 1];
      SplitJoin(init);
      if c == ',' {
        assert Split(s)[..|Split(s)| - 1] == p;
      } else {
        var r := Split(s);
        assert r[|r| - 1] == p[|p| - 1] + [c];
        if |p| > 1 {
          assert r[..|r| - 1] == p[..|p| - 1];
          assert Join(p) == Join(p[..|p| - 1]) + "," + p[|p| - 1];
          assert Join(r) == Join(p[..|p| - 1]) + "," + (p[|p| - 1] + [c]);
        }
        assert s == init + [c];
      }
    }
  }

  lemma {:induction false} SplitAfterComma(a: string, b: string)
    requires ',' !in b
    ensures Split(a + "," + b) == Split(a) + [b]
    decreases |b|
  {
    if |b| == 0 {
      assert (a + "," + b)[..|a + "," + b| - 1] == a;
    } else {
      var b' := b[..|b| - 1];
      SplitAfterComma(a, b');
      assert (a + "," + b)[..|a + "," + b| - 1] == a + "," + b';
      assert b' + [b[|b| - 1]] == b;
    }
  }

  /** Splitting comma-free pieces joined with commas gives the pieces back. */
  lemma {:induction false} JoinSplit(ps: seq<string>)
    requires |ps| >= 1
    requires forall i :: 0 <= i < |ps| ==> ',' !in ps[i]
    ensures Split(Join(ps)) == ps
    decreases |ps|
  {
    if |ps| == 1 {
      SplitNoComma(ps[0]);
    } else {
      var init := ps[..|ps| - 1];
      JoinSplit(init);
      SplitAfterComma(Join(init), ps[|ps| - 1]);
    }
  }

  lemma {:induction false} SplitNoComma(s: string)
    requires ',' !in s
    ensures Split(s) == [s]
    decreases |s|
  {
    if |s| > 0 {
      SplitNoComma(s[..|s| - 1]);
      assert s[..|s| - 1] + [s[|s| - 1]] == s;
    }
  }

  /** The stripped, non-empty pieces of one flag, in order. */
  function Keep(ps: seq<string>): seq<string>
    decreases |ps|
  {
    if |ps| == 0 then []
    else
      var p := Strip(ps[|ps| - 1]);
      Keep(ps[..|ps| - 1]) + (if p != "" then [p] else [])
  }

  /** The pipeline entries one flag contributes. */
  function Pieces(flag: string): seq<string> {
    Keep(Split(flag))
  }

  /** `parse_pipeline`: every flag's pieces, flag by flag. */
  function ParsePipeline(flags: seq<string>): seq<string>
    decreases |flags|
  {
    if |flags| == 0 then [] else ParsePipeline(flags[..|flags| - 1]) + Pieces(flags[|flags| - 1])
  }

  /** A pass name as the pipeline holds it: non-empty, comma-free, without surrounding whitespace. */
  predicate CleanName(x: string) {
    x != "" && ',' !in x && !IsSpace(x[0]) && !IsSpace(x[|x| - 1])
  }

  lemma {:induction false} KeepClean(ps: seq<string>)
    requires forall i :: 0 <= i < |ps| ==> ',' !in ps[i]
    ensures forall i :: 0 <= i < |Keep(ps)| ==> CleanName(Keep(ps)[i])
    decreases |ps|
  {
    if |ps| > 0 {
      KeepClean(ps[..|ps| - 1]);
      var p := ps[|ps| - 1];
      var r := Strip(p);
      assert forall c :: c in r ==> c in p;
    }
  }

  lemma ParseSnoc(flags: seq<string>)
    requires |flags| > 0
    ensures ParsePipeline(flags) == ParsePipeline(flags[..|flags| - 1]) + Pieces(flags[|flags| - 1])
  {
  }

  /** Every pipeline entry is a clean name. */
  lemma {:induction false} ParsePipelineClean(flags: seq<string>)
    ensures forall i :: 0 <= i < |ParsePipeline(flags)| ==> CleanName(ParsePipeline(flags)[i])
    decreases |flags|
  {
    if |flags| > 0 {
      ParseSnoc(flags);
      ParsePipelineClean(flags[..|flags| - 1]);
      SplitJoin(flags[|flags| - 1]);
      KeepClean(Split(flags[|flags| - 1]));
    }
  }

  /** Flags are read in order: the pipeline of two groups of flags is the two pipelines joined. */
  lemma {:induction false} ParsePipelineAppend(a: seq<string>, b: seq<string>)
    ensures ParsePipeline(a + b) == ParsePipeline(a) + ParsePipeline(b)
    decreases |b|
  {
    if |b| == 0 {
      assert a + b == a;
    } else {
      var b' := b[..|b| - 1];
      ParsePipelineAppend(a, b');
      assert (a + b)[..|a + b| - 1] == a + b';
      assert (a + b)[|a + b| - 1] == b[|b| - 1];
      AppendAssoc(ParsePipeline(a), ParsePipeline(b'), Pieces(b[|b| - 1]));
    }
  }

  lemma StripClean(x: string)
    requires x == [] || (!IsSpace(x[0]) && !IsSpace(x[|x| - 1]))
    ensures Strip(x) == x
  {
    if |x| > 0 {
      assert Lead(x) == 0;
      assert Trail(x) == 0;
    }
  }

  lemma {:induction false} KeepNames(names: seq<string>)
    requires forall i :: 0 <= i < |names| ==> CleanName(names[i])
    ensures Keep(names) == names
    decreases |names|
  {
    if |names| > 0 {
      KeepNames(names[..|names| - 1]);
      StripClean(names[|names| - 1]);
    }
  }

  /** A flag that lists clean names separated by commas reads back as exactly those names. */
  lemma ParseJoinedNames(names: seq<string>)
    requires |names| >= 1
    requires forall i :: 0 <= i < |names| ==> CleanName(names[i])
    ensures ParsePipeline([Join(names)]) == names
  {
    JoinSplit(names);
    KeepNames(names);
    var flags := [Join(names)];
    ParseSnoc(flags);
    assert flags[..0] == [];
  }

  // ---------------------------------------------------------------------
  // dedupe_preserve_order
  // ---------------------------------------------------------------------

  /** The list with every repeated element after its first occurrence dropped. */
  function Dedupe(items: seq<string>): seq<string>
    decreases |items|
  {
    if |items| == 0 then []
    else
      var d := Dedupe(items[..|items| - 1]);
      if items[|items| - 1] in d then d else d + [items[|items| - 1]]
  }

  /** Position of the first occurrence of x. */
  function FirstIndex(s: seq<string>, x: string): (i: nat)
    requires x in s
    ensures i < |s| && s[i] == x
    ensures forall j :: 0 <= j < i ==> s[j] != x
    decreases |s|
  {
    if s[0] == x then 0 else 1 + FirstIndex(s[1..], x)
  }

  lemma FirstIndexSnoc(s: seq<string>, y: string, x: string)
    requires x in s + [y]
    ensures x in s ==> FirstIndex(s + [y], x) == FirstIndex(s, x)
    ensures x !in s ==> FirstIndex(s + [y], x) == |s|
  {
    var i := FirstIndex(s + [y], x);
    if x in s {
      var k := FirstIndex(s, x);
      assert (s + [y])[k] == x;
    }
  }

  /**
    `dedupe_preserve_order` keeps one copy of every element and nothing
    else, and keeps them in the order of their first occurrences.
   */
  lemma {:induction false} DedupeSpec(items: seq<string>)
    ensures Distinct(Dedupe(items))
    ensures forall x :: x in Dedupe(items) <==> x in items
    ensures forall i, j :: 0 <= i < j < |Dedupe(items)| ==>
              FirstIndex(items, Dedupe(items)[i]) < FirstIndex(items, Dedupe(items)[j])
    decreases |items|
  {
    if |items| > 0 {
      var init := items[..|items| - 1];
      var y := items[|items| - 1];
      assert items == init + [y];
      DedupeSpec(init);
      var d := Dedupe(init);
      forall x | x in d ensures FirstIndex(items, x) == FirstIndex(init, x) {
        FirstIndexSnoc(init, y, x);
      }
      if y !in d {
        FirstIndexSnoc(init, y, y);
        var r := d + [y];
        forall i, j | 0 <= i < j < |r| ensures FirstIndex(items, r[i]) < FirstIndex(items, r[j]) {
          assert r[i] in d;
          if j < |d| {
            assert r[j] in d;
          }
        }
      }
    }
  }

  /** A list without repeats is its own de-duplication. */
  lemma {:induction false} DedupeDistinct(items: seq<string>)
    requires Distinct(items)
    ensures Dedupe(items) == items
    decreases |items|
  {
    if |items| > 0 {
      var init := items[..|items| - 1];
      DedupeDistinct(init);
      assert items[|items| - 1] !in init;
      assert init + [items[|items| - 1]] == items;
    }
  }

  /** De-duplicating twice changes nothing more. */
  lemma DedupeIdempotent(items: seq<string>)
    ensures Dedupe(Dedupe(items)) == Dedupe(items)
  {
    DedupeSpec(items);
    DedupeDistinct(Dedupe(items));
  }

  /** The loop of `dedupe_preserve_order`, with its `seen` set. */
  method DedupePreserveOrder(items: seq<string>) returns (out: seq<string>)
    ensures out == Dedupe(items)
    ensures Distinct(out) && forall x :: x in out <==> x in items
  {
    var seen: set<string> := {};
    out := [];
    var i := 0;
    while i < |items|
      invariant 0 <= i <= |items|
      invariant out == Dedupe(items[..i])
      invariant forall x :: x in seen <==> x in out
    {
      assert items[..i + 1][..i] == items[..i];
      if items[i] !in seen {
        seen := seen + {items[i]};
        out := out + [items[i]];
      }
      i := i + 1;
    }
    assert items[..|items|] == items;
    DedupeSpec(items);
  }

  // ---------------------------------------------------------------------
  // The pass registry
  // ---------------------------------------------------------------------

  datatype Pass = LocalDcePass | GlobalDcePass | BothDcePass | LvnPass

  /** The registry key of each pass. */
  function PassName(p: Pass): string {
    match p
    case LocalDcePass => "dce-local"
    case GlobalDcePass => "dce-global"
    case BothDcePass => "dce"
    case LvnPass => "lvn"
  }

  const PassNames: set<string> := {"dce-local", "dce-global", "dce", "lvn"}

  /** `PASS_REGISTRY.get(name)`: a name is registered exactly when it is one of the four keys. */
  function LookupPass(name: string): (r: Option<Pass>)
    ensures r.Some? <==> name in PassNames
    ensures r.Some? ==> PassName(r.value) == name
    ensures forall p :: PassName(p) == name ==> r == Some(p)
  {
    if name == "dce-local" then Some(LocalDcePass)
    else if name == "dce-global" then Some(GlobalDcePass)
    else if name == "dce" then Some(BothDcePass)
    else if name == "lvn" then Some(LvnPass)
    else None
  }

  /** The state of a function's blocks after a pass, or the exception a pass raised with the blocks as left. */
  datatype PassResult = Passed(b: BlockInfo) | Raised(err: Lvn.LvnError, b: BlockInfo)

  /** One iteration of `_run_lvn`'s loop, on block i; after an exception nothing more happens. */
  function LvnStep(prev: PassResult, i: nat): (r: PassResult)
    requires i < |prev.b.labelMap|
    ensures r.b == prev.b.(labelMap := r.b.labelMap)
    ensures |r.b.labelMap| == |prev.b.labelMap|
  {
    match prev
    case Raised(_, _) => prev
    case Passed(b') =>
      var entry := b'.labelMap[i];
      match Lvn.LocalValueNumbering(entry.1)
      case Done(nb) => Passed(b'.(labelMap := b'.labelMap[i := (entry.0, nb)]))
      case Failed(e, nb) => Raised(e, b'.(labelMap := b'.labelMap[i := (entry.0, nb)]))
  }

  /** `_run_lvn` over the first n blocks of `label_map`. */
  function LvnUpTo(b: BlockInfo, n: nat): (r: PassResult)
    requires n <= |b.labelMap|
    ensures r.b == b.(labelMap := r.b.labelMap)
    ensures |r.b.labelMap| == |b.labelMap|
    decreases n
  {
    if n == 0 then Passed(b) else LvnStep(LvnUpTo(b, n - 1), n - 1)
  }

  /** `_run_lvn`: value numbering on every block in turn; an exception stops the loop. */
  function RunLvn(b: BlockInfo): PassResult {
    LvnUpTo(b, |b.labelMap|)
  }

  /** Entry i of `after` is block i of `before` as value numbering leaves it. */
  predicate Numbered(before: ODict<string, seq<Instr>>, after: ODict<string, seq<Instr>>, i: nat)
    requires i < |before| && i < |after|
  {
    after[i].0 == before[i].0 && Lvn.LocalValueNumbering(before[i].1) == Lvn.Done(after[i].1)
  }

  /** The first n entries of `after` are value numbering's results for those of `before`; the rest are as they were. */
  predicate NumberedUpTo(before: ODict<string, seq<Instr>>, after: ODict<string, seq<Instr>>, n: nat) {
    && |after| == |before|
    && n <= |before|
    && (forall i :: 0 <= i < n ==> Numbered(before, after, i))
    && (forall i :: n <= i < |before| ==> after[i] == before[i])
  }

  /**
    Value numbering raised `err` on block k: the blocks before it were
    numbered, block k is left as the failed numbering left it, and the
    blocks after it are as they were.
   */
  predicate FailedAt(before: ODict<string, seq<Instr>>, after: ODict<string, seq<Instr>>, k: nat, err: Lvn.LvnError) {
    && |after| == |before|
    && k < |before|
    && (forall i :: 0 <= i < k ==> Numbered(before, after, i))
    && after[k].0 == before[k].0
    && Lvn.LocalValueNumbering(before[k].1) == Lvn.Failed(err, after[k].1)
    && (forall i :: k < i < |before| ==> after[i] == before[i])
  }

  lemma NumberedStep(before: ODict<string, seq<Instr>>, mid: ODict<string, seq<Instr>>, n: nat, nb: seq<Instr>)
    requires NumberedUpTo(before, mid, n) && n < |before|
    requires Lvn.LocalValueNumbering(mid[n].1) == Lvn.Done(nb)
    ensures NumberedUpTo(before, mid[n := (mid[n].0, nb)], n + 1)
  {
    var after := mid[n := (mid[n].0, nb)];
    assert Numbered(before, after, n);
    forall i | 0 <= i < n ensures Numbered(before, after, i) {
      assert Numbered(before, mid, i);
    }
  }

  lemma FailedStep(before: ODict<string, seq<Instr>>, mid: ODict<string, seq<Instr>>, n: nat, e: Lvn.LvnError, nb: seq<Instr>)
    requires NumberedUpTo(before, mid, n) && n < |before|
    requires Lvn.LocalValueNumbering(mid[n].1) == Lvn.Failed(e, nb)
    ensures FailedAt(before, mid[n := (mid[n].0, nb)], n, e)
  {
    var after := mid[n := (mid[n].0, nb)];
    forall i | 0 <= i < n ensures Numbered(before, after, i) {
      assert Numbered(before, mid, i);
    }
  }

  lemma {:induction false} LvnUpToSpec(b: BlockInfo, n: nat)
    requires n <= |b.labelMap|
    ensures var r := LvnUpTo(b, n);
            && (r.Passed? ==> NumberedUpTo(b.labelMap, r.b.labelMap, n))
            && (r.Raised? ==> exists k: nat :: k < n && FailedAt(b.labelMap, r.b.labelMap, k, r.err))
    decreases n
  {
    if n > 0 {
      LvnUpToSpec(b, n - 1);
      LvnStepSpec(b.labelMap, LvnUpTo(b, n - 1), n - 1, n);
    }
  }

  /** What the first i iterations have established about the blocks of `before`. */
  ghost predicate Reached(before: ODict<string, seq<Instr>>, r: PassResult, i: nat) {
    && (r.Passed? ==> NumberedUpTo(before, r.b.labelMap, i))
    && (r.Raised? ==> exists k: nat :: k < i && FailedAt(before, r.b.labelMap, k, r.err))
  }

  lemma LvnStepSpec(before: ODict<string, seq<Instr>>, prev: PassResult, i: nat, next: nat)
    requires i < |before| && |prev.b.labelMap| == |before| && next == i + 1
    requires Reached(before, prev, i)
    ensures Reached(before, LvnStep(prev, i), next)
  {
    if prev.Passed? {
      var mid := prev.b.labelMap;
      match Lvn.LocalValueNumbering(mid[i].1)
      case Done(nb) =>
        NumberedStep(before, mid, i, nb);
      case Failed(e, nb) =>
        FailedStep(before, mid, i, e, nb);
    } else {
      var k: nat :| k < i && FailedAt(before, prev.b.labelMap, k, prev.err);
      assert k < next;
    }
  }

  lemma SameKeys(before: ODict<string, seq<Instr>>, after: ODict<string, seq<Instr>>)
    requires |after| == |before|
    requires forall i :: 0 <= i < |before| ==> after[i].0 == before[i].0
    ensures Keys(after) == Keys(before)
  {
  }

  /**
    `_run_lvn` numbers each block on its own: block ids stay, every block
    before the failing one (all of them, if none fails) is its own
    numbering's result, and the blocks after a failure are untouched.
   */
  lemma RunLvnSpec(b: BlockInfo)
    ensures var r := RunLvn(b);
            && Keys(r.b.labelMap) == Keys(b.labelMap)
            && r.b == b.(labelMap := r.b.labelMap)
            && (r.Passed? ==> NumberedUpTo(b.labelMap, r.b.labelMap, |b.labelMap|))
            && (r.Raised? ==> exists k: nat :: FailedAt(b.labelMap, r.b.labelMap, k, r.err))
  {
    var r := RunLvn(b);
    LvnUpToSpec(b, |b.labelMap|);
    if r.Raised? {
      var k: nat :| k < |b.labelMap| && FailedAt(b.labelMap, r.b.labelMap, k, r.err);
      forall i | 0 <= i < |b.labelMap| ensures r.b.labelMap[i].0 == b.labelMap[i].0 {
        if i < k {
          assert Numbered(b.labelMap, r.b.labelMap, i);
        }
      }
    } else {
      forall i | 0 <= i < |b.labelMap| ensures r.b.labelMap[i].0 == b.labelMap[i].0 {
        assert Numbered(b.labelMap, r.b.labelMap, i);
      }
    }
    SameKeys(b.labelMap, r.b.labelMap);
  }

  /** `PASS_REGISTRY[p].run(blks)`. */
  function ApplyPass(p: Pass, b: BlockInfo): PassResult {
    match p
    case LocalDcePass => Passed(Dce.DceLocalOnly(b))
    case GlobalDcePass => Passed(Dce.DceGlobalOnly(b))
    case BothDcePass => Passed(Dce.DceBoth(b))
    case LvnPass => RunLvn(b)
  }

  /** `for p in pipeline: PASS_REGISTRY[p].run(blks)`: the passes in order, up to the first exception. */
  function RunPasses(ps: seq<Pass>, b: BlockInfo): PassResult
    decreases |ps|
  {
    if |ps| == 0 then Passed(b)
    else
      match RunPasses(ps[..|ps| - 1], b)
      case Raised(e, b') => Raised(e, b')
      case Passed(b') => ApplyPass(ps[|ps| - 1], b')
  }

  /** Continue a pipeline from a pass result. */
  function Then(r: PassResult, ps: seq<Pass>): PassResult {
    match r
    case Raised(_, _) => r
    case Passed(b) => RunPasses(ps, b)
  }

  /** Passes run in pipeline order: running a pipeline is running its first part, then the rest. */
  lemma {:induction false} RunPassesAppend(ps: seq<Pass>, qs: seq<Pass>, b: BlockInfo)
    ensures RunPasses(ps + qs, b) == Then(RunPasses(ps, b), qs)
    decreases |qs|
  {
    if |qs| == 0 {
      assert ps + qs == ps;
    } else {
      var qs' := qs[..|qs| - 1];
      assert (ps + qs)[..|ps + qs| - 1] == ps + qs';
      RunPassesAppend(ps, qs', b);
    }
  }

  lemma ApplyPassShape(p: Pass, b: BlockInfo)
    ensures ApplyPass(p, b).b == b.(labelMap := ApplyPass(p, b).b.labelMap)
    ensures Keys(ApplyPass(p, b).b.labelMap) == Keys(b.labelMap)
    ensures p != LvnPass ==> ApplyPass(p, b).Passed?
  {
    match p
    case LocalDcePass =>
      Dce.DceLocalOnlySpec(b);
      assert Keys(Dce.DceLocalOnly(b).labelMap) == Keys(b.labelMap);
    case GlobalDcePass =>
      Dce.DceGlobalOnlySpec(b);
      assert Keys(Dce.DceGlobalOnly(b).labelMap) == Keys(b.labelMap);
    case BothDcePass =>
      Dce.DceBothSpec(b);
      assert Keys(Dce.DceBoth(b).labelMap) == Keys(b.labelMap);
    case LvnPass =>
      RunLvnSpec(b);
  }

  /**
    Passes only rewrite blocks: the function's name, labels, metadata, CFG
    fields and block ids stay, and a pipeline without `lvn` never raises.
   */
  lemma {:induction false} RunPassesShape(ps: seq<Pass>, b: BlockInfo)
    ensures RunPasses(ps, b).b == b.(labelMap := RunPasses(ps, b).b.labelMap)
    ensures Keys(RunPasses(ps, b).b.labelMap) == Keys(b.labelMap)
    ensures LvnPass !in ps ==> RunPasses(ps, b).Passed?
    decreases |ps|
  {
    if |ps| > 0 {
      RunPassesShape(ps[..|ps| - 1], b);
      var r := RunPasses(ps[..|ps| - 1], b);
      if r.Passed? {
        ApplyPassShape(ps[|ps| - 1], r.b);
      }
    }
  }

  // ---------------------------------------------------------------------
  // run_driver
  // ---------------------------------------------------------------------

  /** A function's `instrs` field: missing, JSON `null`, or a list of instructions. */
  datatype InstrsField = NoInstrs | NullInstrs | InstrList(items: seq<Instr>)

  /** One element of the program's `functions`: its `name`, its `instrs`, and its other fields. */
  datatype Func = Func(name: Option<string>, instrs: InstrsField, meta: seq<(string, string)>)

  /** The `functions` field: a list, or some other JSON value. */
  datatype Functions = FuncList(fs: seq<Func>) | NotAList

  /** The input program, with `functions` possibly missing. */
  datatype Prog = Prog(functions: Option<Functions>)

  /** The exceptions that escape `run_driver`. */
  datatype DriverError =
    | PassFailed(lvnError: Lvn.LvnError)   // raised by `local_value_numbering`
    | CfgFailed(cfgError: Cfg.CfgError)    // raised by `form_cfg`
    | FormBlocksSignature                  // TypeError: `form_blocks` takes no `function_meta`
    | BodyNotIterable                      // TypeError: `form_blocks` iterates a `null` body

  /** A return code with the processed functions, or an exception. */
  datatype Outcome = Exit(code: int, program: seq<BlockInfo>) | Crash(err: DriverError)

  const CfgFormats: set<string> := {"dot", "text", "both"}

  function FuncName(f: Func): string {
    if f.name.Some? then f.name.value else "<unknown>"
  }

  /** `func.get("instrs", [])` for a field that is missing or a list (a `null` one is rejected before). */
  function FuncBody(f: Func): seq<Instr> {
    if f.instrs.InstrList? then f.instrs.items else []
  }

  /**
    The call at driver.py:123.  As written it passes a keyword that
    `form_blocks` does not accept; the intended call forms the blocks and
    records the function's other fields.
   */
  function BlocksOf(f: Func, asWritten: bool): Result<BlockInfo, DriverError> {
    if asWritten then Err(FormBlocksSignature)
    else if f.instrs.NullInstrs? then Err(BodyNotIterable)
    else Ok(Blocks.FormBlocks(FuncBody(f), FuncName(f)).(functionMeta := f.meta))
  }

  /** What the loop body of `run_driver` makes of one function. */
  datatype FuncOutcome = Formed(b: BlockInfo) | BadFormat | Crashed(err: DriverError)

  /** Form blocks, run the passes in order, form the CFG if asked for, then check the CFG format. */
  function ProcessFunction(f: Func, ps: seq<Pass>, doCfg: bool, fmt: string, asWritten: bool): FuncOutcome {
    match BlocksOf(f, asWritten)
    case Err(e) => Crashed(e)
    case Ok(b0) =>
      match RunPasses(ps, b0)
      case Raised(e, _) => Crashed(PassFailed(e))
      case Passed(b1) =>
        var c := if doCfg || fmt != "" then Cfg.FormCfg(b1) else Ok(b1);
        match c
        case Err(e) => Crashed(CfgFailed(e))
        case Ok(b2) => if doCfg && fmt !in CfgFormats then BadFormat else Formed(b2)
  }

  /** The loop over the first n functions. */
  function ProcessAll(fs: seq<Func>, n: nat, ps: seq<Pass>, doCfg: bool, fmt: string, asWritten: bool): (r: Outcome)
    requires n <= |fs|
    decreases n
  {
    if n == 0 then Exit(0, [])
    else
      match ProcessAll(fs, n - 1, ps, doCfg, fmt, asWritten)
      case Crash(e) => Crash(e)
      case Exit(code, prog) =>
        if code != 0 then Exit(code, prog)
        else
          match ProcessFunction(fs[n - 1], ps, doCfg, fmt, asWritten)
          case Crashed(e) => Crash(e)
          case BadFormat => Exit(1, [])
          case Formed(b) => Exit(0, prog + [b])
  }

  /** The registered passes a validated pipeline names. */
  function Passes(pipeline: seq<string>): (ps: seq<Pass>)
    requires forall k :: 0 <= k < |pipeline| ==> LookupPass(pipeline[k]).Some?
    ensures |ps| == |pipeline|
    ensures forall k :: 0 <= k < |pipeline| ==> PassName(ps[k]) == pipeline[k]
  {
    seq(|pipeline|, k requires 0 <= k < |pipeline| => LookupPass(pipeline[k]).value)
  }

  /**
    `run_driver`: exit code 1 when `functions` is missing or not a list,
    or when the pipeline names an unregistered pass, in both cases before
    any function is touched; otherwise every function in turn.
   */
  function RunDriverWith(prog: Prog, pipeline: seq<string>, doCfg: bool, fmt: string, asWritten: bool): (r: Outcome)
    ensures !(prog.functions.Some? && prog.functions.value.FuncList?) ==> r == Exit(1, [])
    ensures (exists k :: 0 <= k < |pipeline| && pipeline[k] !in PassNames) ==> r == Exit(1, [])
  {
    match prog.functions
    case None => Exit(1, [])
    case Some(NotAList) => Exit(1, [])
    case Some(FuncList(fs)) =>
      if exists k :: 0 <= k < |pipeline| && LookupPass(pipeline[k]).None? then Exit(1, [])
      else ProcessAll(fs, |fs|, Passes(pipeline), doCfg, fmt, asWritten)
  }

  /** `run_driver` as written: every function reaches the mismatched `form_blocks` call. */
  function RunDriverAsWritten(prog: Prog, pipeline: seq<string>, doCfg: bool, fmt: string): Outcome {
    RunDriverWith(prog, pipeline, doCfg, fmt, true)
  }

  /** `run_driver` with blocks formed as intended. */
  function RunDriver(prog: Prog, pipeline: seq<string>, doCfg: bool, fmt: string): Outcome {
    RunDriverWith(prog, pipeline, doCfg, fmt, false)
  }

  lemma {:induction false} AsWrittenCrashesFrom(fs: seq<Func>, n: nat, ps: seq<Pass>, doCfg: bool, fmt: string)
    requires 1 <= n <= |fs|
    ensures ProcessAll(fs, n, ps, doCfg, fmt, true) == Crash(FormBlocksSignature)
    decreases n
  {
    if n > 1 {
      AsWrittenCrashesFrom(fs, n - 1, ps, doCfg, fmt);
    }
  }

  /**
    As written, any program that passes validation and has a function
    raises `TypeError` at the first `form_blocks` call.
   */
  lemma AsWrittenAlwaysCrashes(prog: Prog, pipeline: seq<string>, doCfg: bool, fmt: string)
    requires prog.functions.Some? && prog.functions.value.FuncList? && |prog.functions.value.fs| > 0
    requires forall k :: 0 <= k < |pipeline| ==> pipeline[k] in PassNames
    ensures RunDriverAsWritten(prog, pipeline, doCfg, fmt) == Crash(FormBlocksSignature)
  {
    AsWrittenCrashesFrom(prog.functions.value.fs, |prog.functions.value.fs|, Passes(pipeline), doCfg, fmt);
  }

  /** Every entry of prog is what the loop body made of the function at the same position. */
  predicate AllFormed(fs: seq<Func>, ps: seq<Pass>, doCfg: bool, fmt: string, prog: seq<BlockInfo>)
    requires |prog| <= |fs|
  {
    forall i :: 0 <= i < |prog| ==> ProcessFunction(fs[i], ps, doCfg, fmt, false) == Formed(prog[i])
  }

  lemma {:induction false} ProcessAllSpec(fs: seq<Func>, n: nat, ps: seq<Pass>, doCfg: bool, fmt: string)
    requires n <= |fs|
    ensures var r := ProcessAll(fs, n, ps, doCfg, fmt, false);
            && (r.Exit? ==> r.code == 0 || r == Exit(1, []))
            && (r == Exit(1, []) ==> doCfg && fmt !in CfgFormats)
            && (r.Exit? && r.code == 0 ==> |r.program| == n && AllFormed(fs, ps, doCfg, fmt, r.program))
    decreases n
  {
    if n > 0 {
      ProcessAllSpec(fs, n - 1, ps, doCfg, fmt);
      var prev := ProcessAll(fs, n - 1, ps, doCfg, fmt, false);
      if prev.Exit? && prev.code == 0 {
        var o := ProcessFunction(fs[n - 1], ps, doCfg, fmt, false);
        if o.Formed? {
          var prog := prev.program + [o.b];
          assert ProcessAll(fs, n, ps, doCfg, fmt, false) == Exit(0, prog);
          forall i | 0 <= i < n ensures ProcessFunction(fs[i], ps, doCfg, fmt, false) == Formed(prog[i]) {
            if i < n - 1 {
              assert prog[i] == prev.program[i];
            }
          }
        }
      }
    }
  }

  /**
    What one processed function looks like: its name and other fields are
    kept, its block ids and labels are those `form_blocks` gave, its blocks
    are the pipeline's output, and its CFG, when asked for, is formed on
    those blocks and covers exactly them; otherwise it has no CFG.
   */
  lemma ProcessFunctionSpec(f: Func, ps: seq<Pass>, doCfg: bool, fmt: string)
    requires ProcessFunction(f, ps, doCfg, fmt, false).Formed?
    ensures var b := ProcessFunction(f, ps, doCfg, fmt, false).b;
            var formed := Blocks.FormBlocks(FuncBody(f), FuncName(f));
            && !f.instrs.NullInstrs?
            && b.functionName == FuncName(f)
            && b.functionMeta == f.meta
            && b.labelToBlockId == formed.labelToBlockId
            && Keys(b.labelMap) == Keys(formed.labelMap)
            && b.labelMap == RunPasses(ps, formed.(functionMeta := f.meta)).b.labelMap
            && (doCfg || fmt != "" ==>
                  && (forall k :: k in Keys(b.successors) <==> k in Keys(b.labelMap))
                  && (forall k :: k in Keys(b.predecessors) <==> k in Keys(b.labelMap))
                  && (forall a, c :: c in GetOr(b.successors, a, []) ==> c in Keys(b.labelMap)))
            && (!(doCfg || fmt != "") ==> b.successors == [] && b.predecessors == [])
  {
    var formed := Blocks.FormBlocks(FuncBody(f), FuncName(f));
    var b0 := formed.(functionMeta := f.meta);
    Blocks.FormBlocksResolve(FuncBody(f), FuncName(f));
    RunPassesShape(ps, b0);
    var b1 := RunPasses(ps, b0).b;
    assert DistinctKeys(b1.labelMap) by {
      forall i, j | 0 <= i < j < |b1.labelMap| ensures b1.labelMap[i].0 != b1.labelMap[j].0 {
        assert Keys(b1.labelMap)[i] == Keys(b0.labelMap)[i];
        assert Keys(b1.labelMap)[j] == Keys(b0.labelMap)[j];
      }
    }
    assert Blocks.LabelsResolve(b1.labelMap, b1.labelToBlockId) by {
      forall l | l in Keys(b1.labelToBlockId) ensures GetOr(b1.labelToBlockId, l, "") in Keys(b1.labelMap) {
        assert GetOr(b0.labelToBlockId, l, "") in Keys(b0.labelMap);
      }
    }
    if doCfg || fmt != "" {
      Cfg.FormCfgShape(b1);
      Cfg.FormCfgClosed(b1);
    }
  }

  /** A `null` body makes `form_blocks` raise `TypeError`, so the function is never processed. */
  lemma NullBodyCrashes(f: Func, ps: seq<Pass>, doCfg: bool, fmt: string)
    ensures f.instrs.NullInstrs? <==> ProcessFunction(f, ps, doCfg, fmt, false) == Crashed(BodyNotIterable)
  {
  }

  /**
    A run of the intended driver that returns 0 has processed every
    function, in order, none of them with a `null` body; a run that
    returns 1 was stopped by a missing `functions` list, an unknown pass,
    or an unknown CFG format.
   */
  lemma RunDriverSpec(prog: Prog, pipeline: seq<string>, doCfg: bool, fmt: string)
    ensures var r := RunDriver(prog, pipeline, doCfg, fmt);
            && (r.Exit? ==> r.code == 0 || r == Exit(1, []))
            && (r == Exit(1, []) ==>
                  || !(prog.functions.Some? && prog.functions.value.FuncList?)
                  || (exists k :: 0 <= k < |pipeline| && pipeline[k] !in PassNames)
                  || (doCfg && fmt !in CfgFormats))
            && (r.Exit? && r.code == 0 ==>
                  && prog.functions.Some? && prog.functions.value.FuncList?
                  && (forall k :: 0 <= k < |pipeline| ==> pipeline[k] in PassNames)
                  && |r.program| == |prog.functions.value.fs|
                  && AllFormed(prog.functions.value.fs, Passes(pipeline), doCfg, fmt, r.program)
                  && (forall i :: 0 <= i < |prog.functions.value.fs| ==> !prog.functions.value.fs[i].instrs.NullInstrs?))
  {
    if prog.functions.Some? && prog.functions.value.FuncList? {
      if !exists k :: 0 <= k < |pipeline| && LookupPass(pipeline[k]).None? {
        var fs := prog.functions.value.fs;
        ProcessAllSpec(fs, |fs|, Passes(pipeline), doCfg, fmt);
        forall i | 0 <= i < |fs| && ProcessFunction(fs[i], Passes(pipeline), doCfg, fmt, false).Formed?
          ensures !fs[i].instrs.NullInstrs?
        {
          NullBodyCrashes(fs[i], Passes(pipeline), doCfg, fmt);
        }
      }
    }
  }
}
