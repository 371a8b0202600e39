# Bril block, CFG and local-optimisation core

A Dafny model of the core of `briltool`, a small optimiser for Bril, a
register-based intermediate representation whose programs are JSON lists of
instructions. The model covers the following parts.

- **Instruction records** (`Ir`): label markers, destination and argument
  readers, and the terminator set `{jmp, br, ret}`.
- **Block formation** (`Blocks`): `form_blocks` of `briltool/cfg.py`. It
  splits a function body into basic blocks and names them `f::L` after an
  opening label `L`, or `f::b<k>` from a synthetic counter that starts at 0.
- **CFG construction** (`Cfg`): `form_cfg`, covering successor lists from
  `jmp`/`br` targets, `ret` and fall-through, and predecessor lists derived
  from them.
- **The standalone script `my-cfg.py`** (`Standalone`): its own block
  builder, which keeps a `blocks` list and starts numbering at 1. It also
  has its own `form_cfg`, which neither clears old state nor guards against
  an empty block. Both are proved to agree with, or differ exactly as
  stated from, the `briltool` versions.
- **Dead-code elimination** (`Dce`): the whole-function pass `simple_dce`,
  the per-block dead-store pass `local_dce`, and the three pass wrappers.
- **Local value numbering** (`Lvn`): the `LVNTable`, `_ensure_var_id`,
  `_get_expr` and the per-block fold `local_value_numbering`, including the
  exceptions it raises partway through a block.
- **Driver helpers** (`Driver`, `Output`):
  - parsing and de-duplicating the pass pipeline;
  - pass-name validation and the per-function loop of `run_driver`;
  - `_run_lvn`;
  - the re-linearisation of blocks into a labelled stream done by
    `output_json_prog`.

Python dictionaries keep insertion order and replace values in place. The
model uses an ordered association list for them (`OrderedMap.ODict`, with
`Put` and `PutAll`). Mutating passes become pure functions from the old
blocks to the new ones. An exception raised by value numbering becomes an
error value that carries the blocks as the Python code leaves them (the
earlier blocks numbered, the failing block edited up to the failing
instruction). An exception raised by `form_cfg` becomes a bare error
value: the driver does not catch it, so the partly written dictionaries are
never used. The loops that repeat until nothing changes are recursive
functions that terminate because the total instruction count decreases.

The code is modelled as written where it differs from what one might
expect:
- `lvn.py` does not sort commutative operands.
- `id` is memoised like any other expression.
- `local_dce` deletes the first structurally equal instruction.
- A label that collides with a synthetic id, or a duplicated label,
  overwrites an earlier block.

The round-trip properties therefore assume distinct labels that do not look
like `b<digits>` (`Blocks.UnambiguousLabels`).

## Model

| member | source | states |
|---|---|---|
| Ir.GetDest | my-cfg/briltool/ir.py:17-20 | a destination is returned exactly when the `dest` field holds a string, and it is that string |
| Ir.GetArgs | my-cfg/briltool/ir.py:23-26 | the argument names in order when `args` is a list of names, otherwise the empty list |
| Ir.IsLabel | my-cfg/briltool/ir.py:12-14 | definition only, no contract: a record is a label marker when it has a `label` and no `op`; its consequences are stated by the `Blocks` lemmas |
| Ir.IsTerminator | my-cfg/briltool/cfg.py:60 | definition only, no contract: `op` is one of `jmp`, `br`, `ret` (the set `TERMINATORS` of ir.py:8); `Blocks.FormBlocksPartition` states that it ends blocks |
| Ir.RemoveLabelsAppend | my-cfg/briltool/cfg.py:48-64 | deleting label markers distributes over concatenation, which is the basis of every flattening argument |
| Blocks.FormBlocks | my-cfg/briltool/cfg.py:18-70 | definition only, no contract: the loop over the body followed by the trailing `close_block`; its properties are stated by the `Blocks.FormBlocks…` lemmas below |
| Blocks.CloseBlock | my-cfg/briltool/cfg.py:33-46 | definition only, no contract: an empty current block is not stored; otherwise it goes under `f::L` (recording L) or the next synthetic id, and the current block and label are reset; stated through `Blocks.FormBlocksNaming` and `Blocks.FormBlocksLabelEntries` |
| Blocks.FormBlocksPartition | my-cfg/briltool/cfg.py:48-64 | the blocks, in the order they are emitted, concatenate to the body with its label markers removed; every block is non-empty, holds no label, and has a terminator only in last position |
| Blocks.FormBlocksNaming | my-cfg/briltool/cfg.py:11-15 | `label_map` is built by assigning the emitted blocks in emission order: a block opened by label L goes under `f::L`, the k-th unlabelled block under `f::b<k>` from 0, and `label_to_block_id` records L ↦ `f::L` for every labelled block |
| Blocks.FormBlocksLabelEntries | my-cfg/briltool/cfg.py:33-64 | a label gets a `label_to_block_id` entry exactly when it is directly followed by a non-label instruction; a label followed by another label, or ending the body, yields no block and no entry; the entry is `f::L` |
| Blocks.FormBlocksEmpty | my-cfg/briltool/cfg.py:63-70 | an empty body gives no blocks and no label entries |
| Blocks.FormBlocksResolve | my-cfg/briltool/cfg.py:38-44 | both dictionaries have distinct keys, and every recorded label leads to a block that is present, even when ids collide |
| Blocks.FormBlocksNoCollision | my-cfg/briltool/cfg.py:38-44 | with distinct labels not of the form `b<digits>`, no assignment overwrites another: `label_map` holds each emitted block once, in order, and its values flatten to the label-free body |
| Blocks.NamedDistinct | my-cfg/briltool/cfg.py:11-15 | distinct opening labels that are not synthetic-looking, together with distinct counter values, give pairwise distinct block ids |
| Blocks.LabelledIdInjective | my-cfg/briltool/cfg.py:39 | the block id `f::L` determines the label L |
| Blocks.FormBlocksEmit | my-cfg/briltool/cfg.py:48-64 | when no label is dangling and markers are plain, writing every emitted block after its opening marker gives back the body exactly |
| Common.DecimalRoundTrip | my-cfg/briltool/cfg.py:14 | the decimal numeral in a synthetic id reads back as its number, so distinct counters give distinct ids |
| Cfg.FormCfg | my-cfg/briltool/cfg.py:73-100 | definition only, no contract: clears both maps, builds them from the blocks, and fails with the first block's error; stated by `Cfg.FormCfgShape` and the `Cfg.FormCfg…` lemmas below |
| Cfg.BlockTargets | my-cfg/briltool/cfg.py:83-92 | definition only, no contract: the per-block successor rule (`jmp`/`br` targets, `ret`, fall-through, and the `{}` stand-in for an empty block when guarded); stated by `Cfg.SuccessorListSpec` and `Cfg.TargetsAreBlocks` |
| Cfg.Resolve | my-cfg/briltool/cfg.py:88 | mapping the targets through `label_to_block_id` succeeds exactly when every target is a key, keeps target order, and otherwise reports a missing target |
| Cfg.SuccessorListSpec | my-cfg/briltool/cfg.py:82-94 | the successor computation succeeds exactly when every block's rule succeeds; it then holds one entry per block, in block order, under that block's id; otherwise it carries the error of a failing block |
| Cfg.FormCfgShape | my-cfg/briltool/cfg.py:73-100 | `form_cfg` fails exactly when a block's rule fails (an unknown label or a `jmp`/`br` without `labels`); otherwise it changes only the two maps, gives every block and nothing else a successor entry holding that block's targets, gives every block a predecessor entry, and running it again gives the same result |
| Cfg.FormCfgSuccessors | my-cfg/briltool/cfg.py:82-94 | the successor dictionary is exactly the per-block list of targets, in block order |
| Cfg.FormCfgPredecessors | my-cfg/briltool/cfg.py:95-96 | the predecessor list of c holds every source block in block order, once per occurrence of c among its successors |
| Cfg.FormCfgSymmetry | my-cfg/briltool/cfg.py:94-96 | c occurs k times in `successors[a]` exactly when a occurs k times in `predecessors[c]` |
| Cfg.FormCfgClosed | my-cfg/briltool/cfg.py:82-100 | when labels resolve, every successor is a block, and the predecessor keys are exactly the blocks |
| Cfg.AppendPredsSpec | my-cfg/briltool/cfg.py:95-96 | recording one block's targets appends that block to each target's predecessor list once per occurrence and touches no other list |
| Cfg.PredsCount | my-cfg/briltool/cfg.py:94-96 | with distinct source ids, the count of a in c's predecessor list equals the count of c in a's successor list |
| Cfg.TargetsAreBlocks | my-cfg/briltool/cfg.py:84-92 | every target of a successful block rule is a block id, provided every recorded label leads to a block |
| Standalone.FormBlocks | my-cfg/my-cfg.py:86-141 | definition only, no contract: the standalone block builder; stated by `Standalone.FormBlocksAgree`, `Standalone.FormBlocksPartition` and `Standalone.FormBlocksWellFormed` |
| Standalone.FormCfg | my-cfg/my-cfg.py:146-177 | definition only, no contract: the unguarded successor rule added on top of the existing maps; stated by `Standalone.FreshCfgAgrees`, `Standalone.EmptyBlockFails` and `Standalone.FormCfgTwice` |
| Standalone.FormBlocksAgree | my-cfg/my-cfg.py:86-141 | the standalone builder emits the same blocks as `briltool/cfg.py`, in the same order, and records the same label entries; only its synthetic numbering starts at 1 |
| Standalone.FormBlocksPartition | my-cfg/my-cfg.py:100-133 | the `blocks` list concatenates to the body without labels, and every block is a non-empty basic block; with unambiguous labels `label_map` has distinct keys and its values are the `blocks` list |
| Standalone.FormBlocksWellFormed | my-cfg/my-cfg.py:105-133 | `label_map` has distinct keys, every label leads to a block, and no block is empty |
| Standalone.SuccessorListGuard | my-cfg/my-cfg.py:153-166 | on non-empty blocks, the unguarded `block[-1]` rule computes the same successors as the guarded rule of cfg.py |
| Standalone.FreshCfgAgrees | my-cfg/my-cfg.py:146-177 | on a fresh record with non-empty blocks, this `form_cfg` builds the same maps as the cfg.py version; an empty block reached after every earlier block succeeded makes it fail with the `IndexError` of `block[-1]`, naming that block |
| Standalone.EmptyBlockFails | my-cfg/my-cfg.py:153-155 | once the blocks before an empty block have succeeded, the successor loop stops at that block with the `IndexError`, whatever follows it |
| Standalone.FormCfgTwice | my-cfg/my-cfg.py:167-172 | without clearing, a second call succeeds, keeps the successors equal, and doubles every predecessor list |
| Dce.SimpleDce | my-cfg/briltool/passes/dce.py:11-47 | definition only, no contract: sweeps until a sweep removes nothing, recursing on the total instruction count; stated by `Dce.SimpleDceSpec`, `Dce.SimpleDceFixpoint` and `Dce.SimpleDceKeepsEffects` |
| Dce.LocalDce | my-cfg/briltool/passes/dce.py:50-82 | definition only, no contract: scans a snapshot, and scans again while a scan removed something; stated by `Dce.LocalDceSpec` |
| Dce.DceLocalOnly | my-cfg/briltool/passes/dce.py:85-87 | definition only, no contract: `local_dce` on every block; stated by `Dce.DceLocalOnlySpec` |
| Dce.DceGlobalOnly | my-cfg/briltool/passes/dce.py:90-91 | definition only, no contract: `simple_dce` on the blocks; stated by `Dce.DceGlobalOnlySpec` |
| Dce.DceBoth | my-cfg/briltool/passes/dce.py:94-100 | definition only, no contract: `simple_dce` then `local_dce` on every block; stated by `Dce.DceBothSpec` |
| Dce.KeepLive | my-cfg/briltool/passes/dce.py:33-47 | the sweep of one block never grows it, and every instruction it keeps is live |
| Dce.Sweep | my-cfg/briltool/passes/dce.py:33-47 | every block keeps its key and position, and its instructions are filtered by liveness |
| Dce.UsedVarsSpec | my-cfg/briltool/passes/dce.py:28-31 | a variable is used exactly when some instruction in some block names it as an argument |
| Dce.SweepSize | my-cfg/briltool/passes/dce.py:20-47 | a sweep never increases the total instruction count, and one that does not decrease it changes nothing, so the repeat loop terminates |
| Dce.SimpleDceSpec | my-cfg/briltool/passes/dce.py:11-47 | the result keeps every block key in order; each block is its original filtered by what the result itself uses; the used set only shrinks |
| Dce.SimpleDceFixpoint | my-cfg/briltool/passes/dce.py:20-47 | after `simple_dce` every remaining destination is read by some remaining instruction, so a second run changes nothing |
| Dce.SimpleDceKeepsEffects | my-cfg/briltool/passes/dce.py:36-39 | no instruction without a string destination, such as `jmp`, `br`, `ret` or `print`, is ever removed |
| Dce.RemoveFirst | my-cfg/briltool/passes/dce.py:79 | when the value is present, `list.remove` leaves exactly one copy of it fewer and every other element as many times as before; when it is absent the list is unchanged; which copy goes is stated by `Dce.RemoveFirstSplit` |
| Dce.RemoveFirstSplit | my-cfg/briltool/passes/dce.py:79 | when the value is present, the list splits as p, v, q with no copy of v in p, and `list.remove` returns p followed by q: the first equal element is deleted and the others keep their order |
| Dce.LocalScanSpec | my-cfg/briltool/passes/dce.py:58-82 | one scan removes exactly the writes overwritten before any read; it reports a hit exactly when such a write exists; a hit strictly shortens the block; no hit leaves the block unchanged; instructions without a destination all survive |
| Dce.ScanInv | my-cfg/briltool/passes/dce.py:68-80 | during the scan the candidate table holds exactly the pending unread writes; reads clear candidacy before the instruction's own write is considered |
| Dce.LocalDceSpec | my-cfg/briltool/passes/dce.py:50-82 | the final block has no write overwritten before a read, holds a sub-multiset of the original instructions kept in their original relative order (a subsequence), and keeps every instruction without a destination |
| Dce.LocalDceRemovesEqualCopy | my-cfg/briltool/passes/dce.py:77-80 | on `x=const 1; print x; x=const 1; x=const 2` the first equal copy is deleted, so `print x` ends up before any definition of `x` |
| Dce.LocalAll | my-cfg/briltool/passes/dce.py:85-87 | every block is processed independently, in place, under its own key |
| Dce.DceLocalOnlySpec | my-cfg/briltool/passes/dce.py:85-87 | only `label_map` changes, each block shrinks to a sub-multiset with its side effects intact, and no block keeps a dead store |
| Dce.DceGlobalOnlySpec | my-cfg/briltool/passes/dce.py:90-91 | each block shrinks with its side effects intact, every remaining destination is read, and the pass is idempotent |
| Dce.DceBothSpec | my-cfg/briltool/passes/dce.py:94-100 | running the global pass and then the local pass leaves every block free of dead stores, with its side effects intact |
| Lvn.LocalValueNumbering | my-cfg/briltool/passes/lvn.py:41-91 | definition only, no contract: the fold over the block, which on an exception keeps the instructions after the failing one as they were; stated by `Lvn.LvnShape` |
| Lvn.EnsureVarId | my-cfg/briltool/passes/lvn.py:19-25 | a known variable keeps its number and the table is unchanged; an unknown one gets the counter's value, which is fresh, and becomes its own canonical variable; no entry is overwritten |
| Lvn.Canonical | my-cfg/briltool/passes/lvn.py:57-66 | the replacement of an argument is either itself or the canonical variable of its number, and it currently holds that number |
| Lvn.RewriteArgs | my-cfg/briltool/passes/lvn.py:57-66 | rewriting keeps the argument count, keeps each operand's value number, only adds new variables, and never overwrites the table |
| Lvn.EnsureAll | my-cfg/briltool/passes/lvn.py:34-36 | the operand numbers are the arguments' numbers, in argument order |
| Lvn.ConstKey | my-cfg/briltool/passes/lvn.py:31 | an integer literal keys by its value; `true` and `false` key as 1 and 0, as Python's equal hashing does |
| Lvn.FirstArg | my-cfg/briltool/passes/lvn.py:32 | definition only, no contract: `instr["args"][0]`, with `KeyError` for a missing field, `IndexError` for an empty list or string, and a string's first character; stated by `Lvn.GetExpr` |
| Lvn.IterArgs | my-cfg/briltool/passes/lvn.py:35 | definition only, no contract: `for a in instr["args"]`, a list's elements or a string's characters, with `KeyError` for a missing field; stated by `Lvn.GetExpr` and `Lvn.EnsureAll` |
| Lvn.GetExpr | my-cfg/briltool/passes/lvn.py:28-38 | unsupported ops raise the `ValueError`; `const` keys by its literal; `id` by its first argument's number; arithmetic by every argument's number, in order; missing fields raise the matching error |
| Lvn.Memoise | my-cfg/briltool/passes/lvn.py:75-91 | on a hit the destination takes the memoised number, and the instruction becomes `id canon` only if canon still holds that number; on a miss a fresh number is issued and the destination becomes its canonical holder |
| Lvn.Canonicalise | my-cfg/briltool/passes/lvn.py:57-66 | only `args` changes, each operand keeps its value number, and the expression table is untouched |
| Lvn.Step | my-cfg/briltool/passes/lvn.py:48-91 | labels and terminators pass unchanged; only `op` and `args` are written; an instruction without a destination adds no expression; a surviving destination's number is memoised; an unsupported op stops the block |
| Lvn.RunUpTo | my-cfg/briltool/passes/lvn.py:46-91 | the fold keeps the table valid and emits one instruction per consumed instruction until it stops |
| Lvn.LvnShape | my-cfg/briltool/passes/lvn.py:41-91 | block length, order, destinations and labels are preserved; on an exception the instructions after the failing one are left as they were |
| Lvn.LvnRejectsUnsupported | my-cfg/briltool/passes/lvn.py:37-38 | a destination-bearing op outside `const`, `id` and the four arithmetic ops makes the pass fail |
| Lvn.BoolKeysLikeInt | my-cfg/briltool/passes/lvn.py:31 | `x = const true` followed by `y = const 1` turns the second into `y = id x` |
| Lvn.CopyHit | my-cfg/briltool/passes/lvn.py:75-84 | a repeated copy of the same variable becomes a copy of the memoised canonical holder |
| Lvn.CopyIsMemoised | my-cfg/briltool/passes/lvn.py:31-33 | `b = id a` gives b a fresh number rather than a's, and a later `c = id a` becomes `c = id b` |
| Lvn.SumMiss | my-cfg/briltool/passes/lvn.py:85-91 | a new sum gets the next fresh number, and its destination becomes the canonical holder |
| Lvn.OperandOrderMatters | my-cfg/briltool/passes/lvn.py:34-43 | `add a b` and `add b a` get different keys, so the second is not replaced and gets a fresh number |
| Driver.ParsePipeline | my-cfg/briltool/driver.py:43-53 | definition only, no contract: the comma-split, stripped, non-empty pieces of every flag in order; stated by `Driver.ParsePipelineClean`, `Driver.ParsePipelineAppend` and `Driver.ParseJoinedNames` |
| Driver.RunLvn | my-cfg/briltool/driver.py:31-33 | definition only, no contract: value numbering on every block in order, stopping at the first exception; stated by `Driver.RunLvnSpec` |
| Driver.ApplyPass | my-cfg/briltool/driver.py:23-27 | definition only, no contract: the `run` function registered under each pass name; stated by `Driver.RunPassesShape` |
| Driver.FuncBody | my-cfg/briltool/driver.py:121 | definition only, no contract: `func.get("instrs", [])`, the list when present and the empty list when missing; a `null` field never reaches it (see `Driver.NullBodyCrashes`) |
| Driver.ProcessFunction | my-cfg/briltool/driver.py:119-149 | definition only, no contract: one iteration of the loop over `functions` (form blocks, run the passes, form the CFG when asked, check the format); stated by `Driver.ProcessFunctionSpec` and `Driver.NullBodyCrashes` |
| Driver.ProcessAll | my-cfg/briltool/driver.py:117-149 | definition only, no contract: the loop over the functions, stopping at the first exception or `return 1`; stated by `Driver.ProcessAllSpec` |
| Driver.RunDriver | my-cfg/briltool/driver.py:96-154 | definition only, no contract: `run_driver` with the blocks formed as intended; stated by `Driver.RunDriverWith` and `Driver.RunDriverSpec` |
| Driver.Strip | my-cfg/briltool/driver.py:50 | the result is the input minus its leading and trailing whitespace, and it neither starts nor ends with whitespace |
| Driver.StripIdempotent | my-cfg/briltool/driver.py:50 | stripping twice is stripping once |
| Driver.SplitJoin | my-cfg/briltool/driver.py:49 | splitting on commas gives comma-free pieces that join back to the input |
| Driver.ParsePipelineClean | my-cfg/briltool/driver.py:43-53 | every parsed name is non-empty, comma-free and already stripped |
| Driver.ParsePipelineAppend | my-cfg/briltool/driver.py:48-52 | parsing concatenated flag lists concatenates the parsed pipelines, so flags are read in order |
| Driver.ParseJoinedNames | my-cfg/briltool/driver.py:43-53 | a single flag made of clean names joined with commas parses back to exactly those names |
| Driver.DedupeSpec | my-cfg/briltool/driver.py:56-63 | the result is duplicate-free, has the same elements, and lists them in order of first occurrence |
| Driver.DedupeIdempotent | my-cfg/briltool/driver.py:56-63 | de-duplicating twice is de-duplicating once |
| Driver.DedupePreserveOrder | my-cfg/briltool/driver.py:56-63 | the loop with its `seen` set computes the reference de-duplication |
| Driver.LookupPass | my-cfg/briltool/driver.py:23-28 | a name is registered exactly when it is `dce-local`, `dce-global`, `dce` or `lvn`, and lookup returns the pass of that name |
| Driver.RunLvnSpec | my-cfg/briltool/driver.py:31-33 | `lvn` numbers every block independently, keeps keys and all other fields, and on an exception leaves the earlier blocks numbered and the later ones untouched |
| Driver.RunPassesShape | my-cfg/briltool/driver.py:126-127 | passes run in pipeline order and change only `label_map`, keeping its keys; only `lvn` can raise |
| Driver.RunDriverWith | my-cfg/briltool/driver.py:107-115 | exit code 1 before any function is processed when `functions` is missing or not a list, or when a pipeline name is not registered |
| Driver.ProcessAllSpec | my-cfg/briltool/driver.py:117-149 | the loop over the first n functions returns 0 with one entry per function, each what the loop body made of the function at that position, or returns 1 only for an unknown CFG format under `do_cfg` |
| Driver.NullBodyCrashes | my-cfg/briltool/driver.py:121-123 | a function whose `instrs` is `null` is exactly one on which the loop body raises `TypeError` (`get` returns `None`, which `form_blocks` cannot iterate) |
| Driver.ProcessFunctionSpec | my-cfg/briltool/driver.py:119-131 | a processed function had a non-`null` body and has its name and metadata, the label entries of `form_blocks`, and blocks equal to the passes applied to the formed blocks; a CFG is formed afterwards only when requested, and then closes over the blocks |
| Driver.RunDriverSpec | my-cfg/briltool/driver.py:96-154 | a return of 0 means the input and pipeline were valid and every function, none with a `null` body, was processed, in order, one result per function; a return of 1 happens only for the two validation failures or an unknown CFG format |
| Driver.AsWrittenAlwaysCrashes | my-cfg/briltool/driver.py:123 | with the call as written, any program with at least one function and a valid pipeline raises the `TypeError` |
| Output.Relinearise | my-cfg/briltool/driver.py:81-89 | definition only, no contract: the inverted label map and the emitted stream of markers and blocks; stated by `Output.RelineariseRoundTrip` and `Output.RelineariseExact` |
| Output.Invert | my-cfg/briltool/driver.py:82 | definition only, no contract: the dictionary comprehension from block id back to label, a later label for the same block winning; stated by `Output.InvertSpec` |
| Output.Emitted | my-cfg/briltool/driver.py:84-88 | definition only, no contract: the loop over `label_map.items()` emitting an optional marker and the block; stated by `Output.MarkerSpec`, `Output.EmittedAppend` and `Output.EmittedLabelFree` |
| Output.InvertSpec | my-cfg/briltool/driver.py:82 | the inverted map has a key exactly for each block id that is an image of a label, and maps it back to such a label |
| Output.MarkerSpec | my-cfg/briltool/driver.py:86-87 | at most one plain `{label: L}` marker precedes a block, and one does exactly when its id is the image of L |
| Output.EmittedAppend | my-cfg/briltool/driver.py:84-88 | blocks are emitted in stored order: emitting concatenated maps concatenates the outputs |
| Output.EmittedLabelFree | my-cfg/briltool/driver.py:84-88 | removing the markers from the emitted stream of label-free blocks gives the blocks concatenated in order |
| Output.RelineariseRoundTrip | my-cfg/briltool/driver.py:84-89 | re-linearising freshly formed blocks and removing label markers gives the original body with its label markers removed |
| Output.RelineariseExact | my-cfg/briltool/driver.py:81-89 | with unambiguous, non-dangling, plain labels, re-linearising freshly formed blocks gives back the body exactly |
| OrderedMap.Put | my-cfg/briltool/cfg.py:44 | dictionary assignment sets the key, leaves every other key alone, keeps the position of an existing key, and appends a new one |
| OrderedMap.PutAllDistinct | my-cfg/briltool/cfg.py:44 | assigning pairs with distinct keys into an empty dictionary gives those pairs in order |

## Left out

- Reading JSON from files or stdin, printing blocks, CFG text and DOT output, `print(json.dumps(...))`, logging and the command-line front ends: these are I/O.
- The `cfg_format` branches of `run_driver` beyond the check that the format is one of `dot`, `text` or `both`: these only choose what to print.
- `list_passes_text`: text formatting only.
- JSON values are modelled only as far as the code inspects them. An instruction is a closed record. Argument lists hold names. A literal is an integer or a boolean, with no floats. Other fields are an opaque list of pairs.
- Ir.GetArgs: the fresh copy that `get_args` returns has no counterpart in a model without mutation.
- `COMMUTATIVE` in ir.py is never used by the code, so it is not modelled.
- Lvn.GetExpr: a string `args` is handled as Python does (its characters are the arguments). `Other` stands for every other `args` value: a number, a boolean, `null`, an object, or a list holding something other than strings. The model reports `BadArgs` for all of them. Python raises `TypeError` for a number, boolean or `null`. For an object, it iterates the keys in the arithmetic branch and raises `KeyError` on `args[0]` for `id`. For a mixed list, it uses the elements.
- Lvn.Step: a destination that is not a string is reported as an error (`BadDest`). Python would use the odd value as a dictionary key.
- Dce.ScanState: the fields `at` and `removed` are bookkeeping for the proofs (the position of each candidate, and the positions removed). The Python loop has no such fields.
- Dce.RemoveFirst: instruction records are compared with the model's structural equality. Python's dictionary equality also treats `true` as equal to `1` and `false` as equal to `0`, and ignores key order. On `x = const 1; print x; x = const true; x = const 2`, with the same `type` and other fields on every `const`, Python deletes the first instruction where the model deletes the third.
- Ir.IsLabel: a key whose value is JSON `null` is treated as absent. So `{"label": "L", "op": null}` is a label marker in the model but not in Python, which tests whether the key is present.
- Driver.FuncBody: an `instrs` field is modelled as missing, `null` or a list of instructions. Other values are not represented. Python's `form_blocks` raises `TypeError` on a number or boolean. It raises `AttributeError` on a non-empty string or object, whose characters or keys it reads as instructions. It processes an empty string or object as an empty body.
- Driver.FuncName: a `name` that is JSON `null` gives `<unknown>` in the model. Python's `func.get("name", "<unknown>")` returns `None` for it.
- Cfg.FormCfg: when `form_cfg` raises, the successor and predecessor entries already written are not kept; the model returns a bare error. The exception is not caught, so those partial dictionaries are never read.
- Standalone.FormCfg: the same holds for the standalone `form_cfg`.
- Aliasing between `blocks` and `label_map` values in my-cfg.py is not modelled: blocks are values.
- The passes mutate blocks in place. The model returns new blocks instead, so the identity of list objects is not modelled.

## Findings

| source | as written | input that shows it | evidently intended | confidence | as-written member | corrected member |
|---|---|---|---|---|---|---|
| my-cfg/briltool/driver.py:123 | calls `form_blocks(instrs, name, function_meta=func_meta)`, but `form_blocks` at my-cfg/briltool/cfg.py:18 takes only `body` and `name`, so the call raises `TypeError` | any program whose `functions` list has one function, with any valid pipeline | form the blocks from `instrs` and `name`, then record the remaining fields as the function's metadata | high; not executed | Driver.AsWrittenAlwaysCrashes | Driver.RunDriverSpec |
