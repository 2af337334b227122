# A verified model of parts of Shore-MT

This project models, in Dafny, three components of the Shore-MT storage manager whose correctness is not visible from
any one function, and four smaller ones, and proves what they are for. `dafny verify dfyconfig.toml` checks all of it.

**The regular expression library** (`src/common`: regcomp, the engine, regexec). A recursive-descent parser appends
operators to a flat strip, inserts into it, copies stretches of it and patches forward references; an engine runs the
strip as a set of live states and then takes the match apart for the offsets of subexpressions. The model keeps that
form: `Compiler.Parser` is a class whose methods edit the strip in place, `Engine.Match` a class whose methods run it.
Three independent descriptions are set against the code: a grammar of patterns by position (`Grammar`), the meaning of
expressions as sets of words (`Ere`), and the nesting of the strip as a tree with a meaning of its own (`Strip`).

| file | content |
|---|---|
| Grammar, Reading | the grammar of patterns, and the deterministic reading of it that the parser follows |
| Ere, Numbering | expressions, their words, what each is compiled to, the numbering of parentheses |
| Strip, Reach, Closure, Live | the strip, what a state of it means, empty moves, and why a closed set holds all live states |
| Compiler, Musts | the parser and emitter; the string every match must contain |
| StateSets, Stepping, Search, Engine | sets of states as words and as byte arrays; step, slow, fast, dissect |
| Capturing, Captured, Reporting, Nesting | which offsets are recorded, what they mean, and how those of nested subexpressions lie |
| Offsets, Repeated | what is reported of a match, read off the expression and its words alone |
| Regex, Endless | regcomp, matcher and regexec together; when regexec does not return |
| Leftmost, Shortfalls | which of several matches is reported, and where the offsets surprise |

**The memory allocator and the lock-free container** (`src/fc`: mem_block, block_alloc, atomic_container). `Container`
and `Chips` are step systems: threads interleave at single reads and writes of a sequentially consistent memory.
`Pops` says how the container's operations end, over whole runs. `BlockRing` has the ring of blocks and the pool as heap
classes. `Sleeping` exhibits a run in which the container's three-bit version is not enough; `BlockSizes` covers the size
computations and the way from a chip back to its block.

**Smaller pieces**: the order of boxes along a Hilbert curve (`Hilbert`, `HilbertCurve`), scatter/gather byte vectors
(`Vectors`) and the 32-bit value of their bytes (`KeyValues`), and the 48-bit generator (`Rand48`, `FullPeriod`).
`Sequences`, `Powers` and `Wrappers` hold what several of these share.

Where the code and its own text disagree, the model follows the code:

- With states as bits of a 64-bit word, `step` keeps the test by which it notices that a loop's head was live already in
  an int, in which states from 32 on are lost. Once the head of such a loop is live, the step has no end. With the
  pattern `.{31}a*` regexec returns on no text of 31 characters or more (`HangsOnMany`). `Hangs` says for every
  expression, text and window when it does not return, and `ReturnsExactly` for which expressions it always does; byte
  arrays, and so strips of more than 64 operators, are not concerned.
- The engine's text promises the leftmost match. `coldp` moves forward whenever the live states happen to equal those of
  a fresh start, even though an earlier start is still alive, so a later start can be reported (`LeftmostMissed`, with
  the pattern `(b*|a)c` on `ac`); `LeftmostExactly` says when the leftmost one is.
- In `dissect`, the asserted equality of the end of the last pass and the end of the repetition does not hold in general
  (`LastPassShort`, with the pattern `(a|ab|bcd)+` on `abcd`); the stretch the repetition takes, and the value returned,
  are right all the same.
- The offsets of a subexpression can lie outside those of the one around it when a repetition count has copied both, as
  in `((a)|b){2}` on `ab` (`NestingLost`), which the page of regexec in IEEE Std 1003.1 rules out; without such copies
  they never do (`ReportsNest`).
- regex2.h gives the operand of a parenthesis as the distance to its partner; the code emits the subexpression's number.
- An expression of which nothing is left after `{0}` repetitions counts as empty and is refused with REG_EMPTY.
- The comments on block compression promise that the tail advances. It moves exactly when the block after it, recycled,
  is nearly empty and some block of the ring is not (`TailMoves`); a ring all of whose chips are in use stays as it is
  (`TailStays`).
- The comment on `meta_block_size` says that exactly one power of two gives a utilisation between 50% and 100%. There is
  at most one, and none when the header dwarfs the chips (`MetaUnique`, `MetaNone`). The run-time computation of
  `blob_pool` comes out at twice that size, so its blocks always have all 64 chips (`RunCount`).
- cmp of byte vectors asks whether a vector is empty before it asks for the infinities, which are empty: the positive one
  is less than any vector that is not empty, and that one less than it (`EachBelow`). A difference of sizes is cut down
  to an int. `Cmp` says exactly when the sign returned is that of the order.
- `log2` in nbox.cpp does not return for values from 2^30 on (`Log2Stuck`), so the default level asks for smaller sides.

## Model

| member | source | states |
|---|---|---|
| `Regex.CompileAndMatch` | src/common/regexec.cpp:166-186 | Compiling succeeds exactly for patterns the grammar derives; then matching does not return exactly when the word engine gets caught in a step (`Hangs`), and otherwise succeeds exactly when some stretch of the text is a word of the derived expression. |
| `Regex.Regcomp` | src/common/regcomp.cpp:165-259 | A pattern is compiled exactly when it is an extended regular expression; strip, states, prescreen string and count are those of that expression. |
| `Reading.ParseIs` | src/common/regcomp.cpp:265-456 | The reading the parser follows accepts exactly the patterns the grammar derives, the whole pattern, with at most one expression for each. |
| `Reading.RefusedWith` | src/common/regcomp.cpp:265-456 | What stands first, outside parentheses and after whatever could still become a pattern, and cannot go on it, says which error the pattern is refused with: an alternative with nothing compiled, a parenthesis without partner, a lone backslash at the end, a repetition of nothing. |
| `Compiler.Parser.ParseWhole` | src/common/regcomp.cpp:265-305 | Having parsed an expression, the strip has grown by exactly the code of what was read, or the error is the one of the reading. |
| `Compiler.Parser.ParsePiece` | src/common/regcomp.cpp:310-456 | One atom with its repetition: inserting, copying and patching leave the code of the repeated atom after what was there before. |
| `Compiler.Parser.Repeat` | src/common/regcomp.cpp:967-1029 | The operand at the end of the strip is replaced by the code of its from- to to-fold repetition. |
| `Ere.RepIs` | src/common/regcomp.cpp:967-1029 | What repeat unrolls an operand to matches exactly the from- to to-fold concatenations, without bound for infinity. |
| `Compiler.Parser.Insert` | src/common/regcomp.cpp:1354-1385 | One operator comes in at a position and everything after it moves up by one. |
| `Compiler.Parser.Duplicate` | src/common/regcomp.cpp:1306-1326 | A stretch of the strip is copied to its end and the start of the copy returned. |
| `Compiler.Parser.Forward` | src/common/regcomp.cpp:1390-1400 | Only the operand of the forward reference changes. |
| `Ere.LowerIs` | src/common/regcomp.cpp:310-456 | The items an expression is compiled to match a stretch of text exactly when it is a word of the expression. |
| `Reach.NodeCodeLaid` | src/common/regex2.h:74-118 | In rendered code every opening operator's offset lands on its partner, for every nesting of loops, options and choices. |
| `Numbering.WholeNumbered` | src/common/regcomp.cpp:325-340 | Subexpressions are numbered from one in the order their parentheses open. |
| `Musts.FindMust` | src/common/regcomp.cpp:1447-1520 | The scan over the strip yields the first longest run of literals of the expression that nothing can skip. |
| `Musts.MandatoryWithin` | src/common/regcomp.cpp:1447-1520 | That string is a contiguous part of every string the expression matches. |
| `Musts.MandatoryLongest` | src/common/regcomp.cpp:1447-1520 | It is as long as any run of literals that every match goes through, also of those inside a repetition; of literals and parentheses alone it is all of the literals. |
| `Regex.Prescreen` | src/common/regex_engine.cpp:144-151 | The scan for the string stops at the end exactly when it does not occur within the searched stretch. |
| `Regex.NoMandatory` | src/common/regex_engine.cpp:144-151 | A text without the string holds no match, so the prescreen never rejects a text with one. |
| `Stepping.Step` | src/common/regex_engine.cpp:838-944 | The sweep, which goes back at loops, ends exactly if states are bytes or the least set that holds aft and the successors of bef and is closed under empty moves has no loop's head at state 32 or later; it then returns that set. |
| `Stepping.NeverBeyond` | src/common/regex_engine.cpp:892-900 | In a word, from before the end of a loop whose head is live at state 32 or later, the sweep never gets beyond that end, however many turns it takes. |
| `Stepping.Settled` | src/common/regex_engine.cpp:724-730 | A further step over nothing changes nothing. |
| `Closure.CodePaired` | src/common/regex_engine.cpp:885-935 | In compiled code the jumps of a step stay within the strip and meet their partners, as step relies on. |
| `Search.StepLive` | src/common/regex_engine.cpp:724-731 | Closing what the live states read gives exactly the states of partial matches one character on. |
| `Search.EndLive` | src/common/regex_engine.cpp:719-741 | The final state is live exactly when some match ends here. |
| `StateSets.Fwd` | src/common/regexec.cpp:91-95 | Moving a state forward adds the same state to the set in the word and in the array representation. |
| `StateSets.Back` | src/common/regexec.cpp:142-144 | Moving a state backward likewise, in both representations. |
| `StateSets.IsSetBackInt` | src/common/regexec.cpp:95 | Kept in an int, the test for an earlier state is that of its being in the set, but for states from 32 on of a word, for which it is false. |
| `StateSets.Eq` | src/common/regexec.cpp:75-82 | Equality of representations is equality of the sets. |
| `Engine.Match.Slow` | src/common/regex_engine.cpp:747-821 | The end of the longest match that begins at the start, or none; it does not return exactly if the states live at some position on its way have a loop's head out of an int's reach. |
| `Engine.Match.Fast` | src/common/regex_engine.cpp:661-742 | There is a result exactly when some match begins and ends within the range; it is the earliest end, and coldp the last position where the live states were those of a fresh start. It does not return exactly if by that end the live states have a loop's head out of reach. |
| `Regex.FindStart` | src/common/regex_engine.cpp:180-187 | The scan upward from coldp ends, at the first start that has a match, unless one of the calls of slow up to there does not return. |
| `Engine.Match.Dissect` | src/common/regex_engine.cpp:278-454 | Taking an exact match apart ends at its end, every repeated or alternated piece taking the longest stretch that lets the rest match, and records the offsets that go with it, which the next rows describe; it always returns where slow has returned for the whole expression. |
| `Offsets.ReportIs` | src/common/regex_engine.cpp:278-454 | What is reported of a match, in terms of the words of the expression's parts that occur in the text: for the match itself, its stretch; for each subexpression the match goes through, the stretch between where it begins and where it ends, pieces going as far as the rest allows, from the first on; for all others nothing. |
| `Offsets.OutcomeReports` | src/common/regex_engine.cpp:116-271 | So for the outcome of regexec on every text with a match, whose offsets begin with a word of the expression that is the longest from its start. |
| `Offsets.AbsentExactly` | src/common/regex_engine.cpp:278-454 | A subexpression is reported as absent exactly if the match does not go through it. |
| `Offsets.FoundIs` | src/common/regex_engine.cpp:278-454 | Within any stretch that is a word of a part, the part's subexpressions are found as words of theirs, and those every word goes through are found. |
| `Offsets.StarGone` | src/common/regex_engine.cpp:347-390 | A starred piece, wherever it stands, that has a stretch that is not empty reports, from the last of the words that longest words lead to, what every word of its body goes through. |
| `Offsets.OptionGone` | src/common/regex_engine.cpp:408-428 | So does an option, from its whole stretch. |
| `Offsets.CopiesGone` | src/common/regcomp.cpp:967-1029 | So does a piece with a repetition count that begins at zero. |
| `Offsets.ChoiceGone` | src/common/regex_engine.cpp:408-428 | Of a choice the first alternative that has the stretch reports, at least what every word of it goes through, and no other does. |
| `Offsets.LastWordIs` | src/common/regex_engine.cpp:372-387 | The last word of a repetition is the end of a cut of the text into longest words, none of them empty, that goes as far as it can; or the empty word there, if the body has it. |
| `Offsets.StarReported` | src/common/regex_engine.cpp:347-390 | Of a pattern x*y the parentheses within x are reported as absent when x* is left nothing and x has no empty word, and otherwise, as far as every word of x goes through them, within the last word of x; x itself, in parentheses, exactly as that word. |
| `Repeated.RepeatedReported` | src/common/regex_engine.cpp:347-390 | A pattern, (ab)*c, and a text, ababc, for which the second "ab" is reported. |
| `Engine.Match.ShareOf` | src/common/regex_engine.cpp:334-371 | The loop that shortens a piece's stretch finds the longest one after which the rest still matches. |
| `Engine.Match.LastPassOf` | src/common/regex_engine.cpp:372-387 | The walk through a repetition gives the last pass that longest matches lead to. |
| `Engine.Match.Pick` | src/common/regex_engine.cpp:408-428 | The alternative taken is the first that matches the stretch exactly. |
| `Regex.Matcher` | src/common/regex_engine.cpp:116-271 | Result and offsets are a function of expression, text and window alone, whichever representation of sets is used, and with bytes it always returns; with words it does not return exactly when, the mandatory string being there, fast or slow meets a loop's head out of reach. |
| `Regex.Regexec` | src/common/regexec.cpp:166-186 | So where the word engine returns, the choice between bit word and byte array changes neither result nor offsets; and it does not return exactly when `Hangs` holds. |
| `Regex.NearReturns` | src/common/regexec.cpp:182-185 | On every text, if the strip has more than 64 operators or none of its loops begins at state 32 or later. |
| `Endless.HangsExactly` | src/common/regexec.cpp:95 | There is a text on which regexec does not return exactly if the strip has at most 64 operators and some text leads to a loop that begins at state 32 or later. |
| `Endless.ReturnsExactly` | src/common/regexec.cpp:182-185 | So without empty bracket sets regexec returns on every text exactly under the condition of `NearReturns`. |
| `Endless.HangsOnMany` | src/common/regex_engine.cpp:892-900 | A pattern with which regexec returns exactly on the texts of less than 31 characters, those that do not match. |
| `Regex.OutcomeIsMatch` | src/common/regex_engine.cpp:116-271 | That outcome is a match exactly when some stretch of the window is a word of the expression. |
| `Leftmost.ReportedIsLongest` | src/common/regex_engine.cpp:167-190 | The reported stretch is a word of the expression and the longest from its start; no match begins between the last position, up to the earliest end of a match, where the live states are those of a fresh start, and that start. |
| `Leftmost.LeftmostExactly` | src/common/regex_engine.cpp:680-686 | The leftmost match is reported exactly when the live states never equal the fresh ones again between its start and the earliest end. |
| `Leftmost.LeftmostMissed` | src/common/regex_engine.cpp:680-686 | A pattern and a text for which a later start is reported. |
| `Captured.CapturedIsWord` | src/common/regex_engine.cpp:278-454 | Offsets reported for a subexpression are a stretch of the match that is a word of it; a subexpression that took no part is reported as absent. |
| `Nesting.ReportsNest` | src/common/regex_engine.cpp:278-454 | A reported subexpression lies within the reported stretch of every one around it, in expressions whose repetition counts copy only subexpressions all of whose words go through all they enclose. |
| `Shortfalls.NestingLost` | src/common/regex_engine.cpp:436-445 | A pattern with such a count, and a text for which an inner subexpression is reported before the outer one. |
| `Reporting.RequiredReported` | src/common/regex_engine.cpp:436-445 | A subexpression outside every choice, option and repetition that may be skipped is always reported. |
| `Reporting.WholeReported` | src/common/regex_engine.cpp:436-445 | A subexpression that is the whole expression is reported with the offsets of the match. |
| `Captured.LastPassReaches` | src/common/regex_engine.cpp:374-390 | The last pass ends where the repetition does exactly when the walk nowhere stops before. |
| `Reporting.LastPassWhole` | src/common/regex_engine.cpp:374-390 | It does whenever no match of the body is a proper prefix of another. |
| `Shortfalls.LastPassShort` | src/common/regex_engine.cpp:374-390 | A pattern and a text for which the last pass ends before the repetition does: the match is the whole text, and the parenthesis under the repetition is reported in the middle of it. |
| `Container.StepExactly` | src/fc/atomic_container.h:76-111 | The invariant of the container is kept by a step exactly when the stepping popper, if its CAS takes effect, holds the true next of the head. |
| `Container.Unswapped` | src/fc/atomic_container.h:76-91 | With at most seven swaps since the read, an unchanged word means an unchanged list. |
| `Container.OnePlace` | src/fc/atomic_container.h:76-221 | In every run each item is in exactly one of the active list, the backup list, a list cut loose, or one thread's hands. |
| `Container.EmptyMeansEmpty` | src/fc/atomic_container.h:199-221 | A popper that looks for a list to cut loose finds none exactly when both lists are empty. |
| `Pops.PopEnds` | src/fc/atomic_container.h:76-93 | However a pop under way in a run comes to its end, it returns either an item, which the thread now holds and has taken, in this pop, from the head of the active list or of the list it had cut loose, or nothing, both lists having been empty when it last looked. |
| `Pops.PushEnds` | src/fc/atomic_container.h:94-111 | However a push comes to its end, its item has just been put on top of the backup list, and nothing else has changed. |
| `Pops.EndsAlone` | src/fc/atomic_container.h:76-221 | From every state that a run can reach, unless another thread holds the lock or the popper has slept through eight swaps, a thread that nobody gets in the way of comes to the end of its pop or push within eleven steps. |
| `Container.TakenFromHead` | src/fc/atomic_container.h:76-93 | The item pop returns, the one its CAS compared or the first of the list it cut loose, is the head of that list, and it is in the popper's hands from then on. |
| `Container.NotPoppedTwice` | src/fc/atomic_container.h:76-111 | Between two pops of an item somebody pushed it. |
| `Sleeping.EightSwapsBreakIt` | src/fc/atomic_container.h:47-56 | Seven is the most: a run, every step of which is within the bound, leads to a state where after eight swaps a CAS makes an item in a client's hands the head of the active list. |
| `Chips.IndexIsLowest` | src/fc/mem_block.cpp:94-119 | Isolating a bit by negation and counting the ones below it gives the lowest set bit, or the width. |
| `Chips.StepInv` | src/fc/mem_block.cpp:94-176 | Every step of the owner and of any number of releasers keeps the three states apart. |
| `Chips.ThreeStates` | src/fc/mem_block.h:66-83 | Outside the owner's recycling every chip is usable, in use or a zombie, and only one of these. |
| `Chips.NotHandedOutTwice` | src/fc/mem_block.cpp:94-119 | The chip handed out is the lowest usable one and was in nobody's hands; nothing else changes; there is none exactly when none is usable. |
| `Chips.NoReleaseLost` | src/fc/mem_block.cpp:121-176 | No step lets a chip that has been released get lost: it stays a zombie until it is usable. |
| `Chips.RecycleIs` | src/fc/mem_block.cpp:151-176 | However many releases race with a recycling: when it ends, the usable chips are those before and all zombies before, and the zombies are exactly the chips whose release has taken effect meanwhile. |
| `Chips.ReleaseEnds` | src/fc/mem_block.cpp:121-144 | When a release ends it has just made its chip, which the client had held until then, a zombie, and no other. |
| `Chips.RecycleAlone` | src/fc/mem_block.cpp:151-176 | With no release meanwhile a recycling ends in three steps and leaves no zombie. |
| `Chips.ReleaseAlone` | src/fc/mem_block.cpp:121-144 | With nobody in its way a release ends in two steps at most. |
| `BlockRing.Pool.AcquireBlock` | src/fc/mem_block.h:196-203 | The block comes from the front of the free list, or is new, is recycled and owned by the caller; the others are untouched. |
| `BlockRing.Pool.ReleaseBlock` | src/fc/mem_block.h:205-213 | The block goes to the end of the free list, unlinked, and its next is returned. |
| `BlockRing.BlockList.Grow` | src/fc/mem_block.cpp:301-306 | One block more, after the tail, which it becomes; the ring stays one cycle. |
| `BlockRing.BlockList.Compress` | src/fc/mem_block.cpp:307-338 | The walk ends. Counting from the tail and back round to it, let k be the place of the first block that recycling does not leave nearly empty: exactly the blocks up to k are recycled, those before the last one below k are given back, and that one is the new tail; without such a k only the old tail remains. No block is lost and the ring stays one cycle. |
| `BlockRing.BlockList.FirstHeavyIs` | src/fc/mem_block.cpp:311-315 | That place is the first such block, and it is one. |
| `BlockRing.BlockList.LightWhen` | src/fc/mem_block.cpp:295-296 | A block is nearly empty when it is empty, or when one chip more in use would still be no more than a tenth. |
| `BlockRing.BlockList.TooFastWhen` | src/fc/mem_block.cpp:297-301 | Chips are used up too fast when fewer than half of a block's have been handed out since the last change, and also by the weighted average. |
| `BlockRing.BlockList.AverageNears` | src/fc/mem_block.cpp:294-300 | Each change brings the average four fifths of the way to the last count. |
| `BlockRing.BlockList.TailMoves` | src/fc/mem_block.cpp:307-338 | The tail moves exactly when the ring has another block, the one after the tail is left nearly empty, and some block is not. |
| `BlockRing.TailStays` | src/fc/mem_block.cpp:307-338 | A list of two blocks, reached from an empty one, that a compression leaves as it is, tail included. |
| `BlockRing.BlockList.ReleasedLight` | src/fc/mem_block.cpp:283-289 | Only nearly empty blocks are given back, and the tail moves only onto one. |
| `BlockRing.BlockList.ChangeBlocks` | src/fc/mem_block.cpp:270-341 | The whole change: the first time, or when chips are used up too fast, the ring grows by one block; otherwise it is compressed, exactly as far as Compress says; one cycle, every block in one place, none lost. |
| `BlockRing.BlockList.Acquire` | src/fc/mem_block.cpp:222-260 | acquire ends with a chip that was free in a block of the ring or the pool, or in a new block, now the tail; that block has no other chip less, and no other block loses or gains a free chip; there are at most two more changes than blocks in the pool. |
| `BlockRing.BlockList.Nearer` | src/fc/mem_block.cpp:255-260 | After one fruitless round the rate test grows the ring, and each further round uses up a pool block without chips. |
| `BlockSizes.MetaCount` | src/fc/mem_block.h:246-302 | For every chip size the block holds between 33 and 64 chips after the header. |
| `BlockSizes.MetaUnique` | src/fc/mem_block.h:266-273 | A power of two has room for 33 to 64 chips exactly if it is the one computed and has room for no more. |
| `BlockSizes.MetaNone` | src/fc/mem_block.h:285-297 | Parameters for which no power of two has. |
| `BlockSizes.RunCount` | src/fc/block_alloc.cpp:92-112 | The run-time form has twice the size and always 64 chips, for sizes that an int can be shifted to. |
| `BlockSizes.RunFits` | src/fc/block_alloc.cpp:103-105 | Such are exactly those for which 33 chips and the header take no more than 2^29 bytes. |
| `BlockSizes.Release` | src/fc/mem_block.cpp:183-197 | Masking the address of chip i gives its block, and the offset the index i. |
| `Hilbert.HValue` | src/fc/nbox.cpp:492-520 | The loop computes the value of the box's centre; for level 0 the value at the level the universe's shorter side stands for, and within the range of that level, in every universe. |
| `Hilbert.StandsForOne` | src/fc/nbox.cpp:494-496 | Level 0 stands for as many levels as the shorter of the universe's sides can be halved, but for no more than fourteen. |
| `Hilbert.DefaultLevel` | src/fc/nbox.cpp:492-520 | Of that many levels the value at level 0 is the value, within the 4^n consecutive integers n levels have. |
| `Hilbert.ValueRefines` | src/fc/nbox.cpp:504-517 | A level more makes the value four times as large, but for a last digit between -1 and 2. |
| `Hilbert.FirstLevel` | src/fc/nbox.cpp:504-517 | One level tells the quadrants of any universe apart: counted around from the low corner, from -1 on, an odd side's middle in its low half. |
| `Hilbert.WalkHalves` | src/fc/nbox.cpp:504-505 | After n levels the half sides are those at the start, halved n times. |
| `Hilbert.CentreIs` | src/fc/nbox.h:109 | The centre is within the box and as near as an int can be to half way between its sides. |
| `Hilbert.HCmp` | src/fc/nbox.cpp:522-555 | The comparison by first differing digit has the sign of the difference of the values, for all boxes, universes and levels. |
| `Hilbert.ValueFits` | src/fc/nbox.cpp:492-520 | Down to fifteen levels the value is a 32-bit int. |
| `Hilbert.Log2` | src/fc/nbox.cpp:474-480 | The loop gives the floor of the binary logarithm, zero below one. |
| `Hilbert.Log2Stuck` | src/fc/nbox.cpp:474-480 | From 2^30 on the loop's test never fails. |
| `Hilbert.Power` | src/fc/nbox.cpp:482-487 | The loop gives the power. |
| `Hilbert.PowSum` | src/fc/nbox.cpp:482-487 | Powers multiply by adding exponents. |
| `HilbertCurve.ValueInRange` | src/fc/nbox.cpp:492-520 | In a square universe of side 2^k the values lie in a range of 4^k consecutive integers. |
| `HilbertCurve.ValueTaken` | src/fc/nbox.cpp:492-520 | Every integer of the range is the value of some box. |
| `HilbertCurve.ValueOnce` | src/fc/nbox.cpp:492-520 | Points with equal values are equal. |
| `HilbertCurve.ValueSteps` | src/fc/nbox.cpp:460-466 | Points with consecutive values differ in exactly one coordinate, by one. |
| `HilbertCurve.CurveEnds` | src/fc/nbox.cpp:460-466 | The lowest value belongs to the low corner of the universe and the highest to the corner to the right of it. |
| `Rand48.MaskIs` | src/fc/rand48.cpp:60-63 | The bitwise mask is the remainder by 2^48. |
| `Rand48.NextIs` | src/fc/rand48.cpp:65-69 | Wrapping to 64 bits before masking does not change the 48-bit result. |
| `Rand48.Generator.Update` | src/fc/rand48.cpp:65-69 | One update is one step of the linear congruence modulo 2^48. |
| `FullPeriod.SameStateWhen` | src/fc/rand48.cpp:65-69 | Two moments of a run have the same state exactly when a multiple of 2^48 steps lies between them. |
| `FullPeriod.VisitsAll` | src/fc/rand48.cpp:65-69 | From every seed every 48-bit state occurs exactly once among the first 2^48. |
| `Vectors.Vec.Put` | src/common/vec_t.cpp:162-177 | The bytes are appended, as a part of their own unless there are none. |
| `Vectors.Vec.PutVec` | src/common/vec_t.cpp:375-391 | The bytes of the other vector are appended, also when it is the same vector. |
| `Vectors.Vec.PutRange` | src/common/vec_t.cpp:121-160 | Exactly the bytes of the range are appended, however it cuts across parts. |
| `Vectors.Vec.Split` | src/common/vec_t.cpp:102-119 | The first bytes go to the end of one vector and the others to the end of the other, also when the two are the same. |
| `Vectors.Vec.CopyTo` | src/common/vec_t.cpp:229-245 | The first bytes of the vector, at most as many as the limit. |
| `Vectors.Vec.Cmp` | src/common/vec_t.cpp:413-487 | The result has the sign of the lexicographic order of the bytes, the infinities at either end, however both are cut into parts, exactly unless the positive infinity is compared with a vector that is not empty, or one of two finite vectors is a prefix of the other and an int does not keep the sign of the difference of their sizes; and the length of the longest common prefix where it is told. |
| `Vectors.EachBelow` | src/common/vec_t.cpp:419-427 | Of the positive infinity and a vector that is not empty each compares as less than the other. |
| `Vectors.Vec.CalcKvl` | src/common/vec_t.cpp:499-518 | The value depends on the bytes alone, so vectors equal under cmp have the same; which value it is, the next rows say. |
| `KeyValues.KvlByte` | src/common/vec_t.cpp:501-503 | Of at most four bytes each is the value's digit to base 256, the first the lowest. |
| `KeyValues.KvlShort` | src/common/vec_t.cpp:501-503 | Vectors of the same length, at most four, have the same value only if they are equal. |
| `KeyValues.KvlFive` | src/common/vec_t.cpp:504-516 | Of five bytes the value is the sum of each times a power of 32, the last one's being one. |
| `KeyValues.KvlNext` | src/common/vec_t.cpp:504-516 | One byte more: the five high bits, if any is set, are masked off and added, shifted down by 27, to the rest; the word is shifted up by five and the byte added, all in 32 bits. |
| `KeyValues.KvlLast` | src/common/vec_t.cpp:504-516 | Vectors of five bytes or more that differ in the last byte only have different values. |
| `Vectors.Vec.MkChunk` | src/common/vec_mkchunk.cpp:64-129 | The next chunk has exactly the bytes after the offset, up to the size asked for. |
| `Vectors.ChunksJoin` | src/common/vec_mkchunk.cpp:50-63 | Successive chunks put together are the whole. |

## Left out

- Reading.ParseIs: anchors and word boundaries are refused here, with an error of their own; what stands between brackets is read by a parameter (any function from the text after the bracket to a set and a length, overruns refused), so bracket syntax, collating elements and locale tables are not modelled.
- Regex.Regcomp: extended expressions only; the basic and literal parsers, REG_ICASE, REG_NEWLINE's effect on '.' and bracket sets, REG_NOSPEC and REG_PEND are not part of this model.
- Compiler.Parser.ParsePiece: refuses ^ and $ where the source emits anchors; where a subexpression begins and ends in the strip, which only back-references read, is not recorded.
- Compiler.Parser.Insert: those positions of subexpressions, which the source moves along, are left out for the same reason.
- Regex.CompileAndMatch: covers the patterns of ParseIs; matching with anchors, and backref, which tries a back-reference's branches only to their own end, are left out.
- Stepping.Step: a long has 64 bits and an int 32, and an unsigned long made an int keeps its low bits, as on LP64 platforms.
- Regex.Regexec: the magic-number checks and the bit that refuses a damaged strip are left out; a window given by the caller lies within the text.
- Engine.Match.Fast: Flags.newline and the two not-at-line flags are followed only as far as the boundary codes, which no operator of the model reads.
- Captured.CapturedIsWord: says what a reported stretch is, not which of several it is; that is said by Offsets.ReportIs.
- Reading.RefusedWith: of what goes wrong inside parentheses, in a repetition count or by repeating a repetition, only that the pattern is refused is said, by Reading.ParseIs.
- Nesting.ReportsNest: its condition on repetition counts is sufficient only; `((a)|a){2}`, whose second alternative is never taken, does not meet it and reports nested stretches all the same.
- Captured.LastPassReaches: its condition follows the walk itself; Reporting.LastPassWhole has one on the body alone, which is sufficient only.
- Compiler.Parser.Emit: operands are unbounded; the source packs them in 27 bits with an assertion, so nested bounds that emit a longer strip differ. Growth of the strip and failure of malloc are left out.
- StateSets.Eq: the byte arrays are values; sharing of the work space between them is left out.
- Sets of characters are carried in the operators instead of a table of sets with numbers; categories of characters, pluscount and the tables for REG_NEWLINE are left out.
- Container.OnePlace: threads take atomic steps in a sequentially consistent memory, in which items are never returned to the system; barriers are left out. Three version bits are modelled; a 32-bit build has two.
- Pops.EndsAlone: a thread in whose way others get, or that waits for a lock whose holder does not move, need not come to an end.
- Chips.StepInv: a count of ones is taken as such; the software popcount and the compiler's builtin are left out.
- BlockRing.BlockList.Compress: releases that run at the same time are covered by Chips, not here, where a block is recycled in one step; the double-precision hit rate is a real.
- BlockRing.BlockList.Acquire: no failing allocation, and nobody else adds to the pool meanwhile; the destructor of a block list, dynarray, mmap and the pool's mutex are left out.
- BlockSizes.RunCount: beyond the sizes of RunFits the source shifts an int by 31 bits or more, which is left out.
- Hilbert.HValue: coordinates and values are unbounded integers; ValueFits says up to which level the value is an int, and sides and offsets beyond the range of int are left out. For the default level the smaller side is below 2^30, above which log2 does not return.
- Hilbert.HCmp: as for HValue.
- Rand48.Generator.Update: drand, which builds a double from the bits, and randn are left out.
- Vectors.Vec.PutRange: asks for a vector with at least one part, as the source does by reading one, and for a range within it.
- Vectors.Vec.Split: neither of the two targets is the vector that is split, whose parts the source walks while it appends.
- Vectors.Vec.Cmp: the two infinities are passed in, and are empty, as the source's constants are.
- Vectors.Vec.MkChunk: lengths and offsets are natural numbers; the source keeps them in ints, so vectors, offsets and chunks of 2^31 bytes or more are left out.
- Vectors.Vec.CalcKvl: on a little-endian machine.
- Parts of a vector are their bytes, not addresses: copying from one vector into another, the zero vector, checksums, the growing of the array of parts and cmp against plain memory are left out.
- Latches, bitmaps, sequence numbers, options, logging, prime search and everything else in the repository.
