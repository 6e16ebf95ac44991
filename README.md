# A verified model of the `words` editing engine

`words` is a small browser text editor. This project models the engine under its UI:

- a Document holds Blocks, a Block holds Words and a Word holds Chars;
- the Document also keeps a flat `chars` array of its Chars, meant to be in document order. It stays in that order as long as every split makes only one kind of new word (see below);
- the files are `src/js/util.js`, `char.js`, `word.js`, `block.js` and `document.js`.

## How the model is built

**Objects are ids.** The JavaScript compares objects by reference: `indexOf`, `nextWord === prevWord`, `next.parent !== nextWord`. So every Block, Word and Char is a number into one object store, `Tree.Heap`:

- every field of every object is an entry of one of its maps;
- `next` is the next id to hand out.

**State changes are a class.** `Engine.Document` holds the same fields as mutable variables. Each of its methods does what the JavaScript method does, step by step, with the same loops. Each method promises that its new state is an effect function of the old state, for example `State() == SplitEffect(old(State()), w)`. What those effect functions mean is proved about them in the value modules:

- `Tree`: the store, the read-only views (`getChars`, `toString`), the constructors and the plain list splices.
- `Util`, `Chars`: the separator predicates and the Char value object.
- `WordScan`: the scanning pass of `Word.split`, as a pure state machine (`Step`, `ScanTo`, `PlanOf`) and as the loop `Scan` that computes it.
- `Words`: `split`, the char splices of a Word and `toggleProp`.
- `Blocks`: the Block operations that end in `split` or may remove the block.
- `SplitFacts`, `WordOrder`, `SplitText`: what a split does to well-formedness, to the document's order of words and to its text.
- `Documents`: `insertCharsAt`, `removeCharsAt`, `execAction` and `new Document(text)`.
- `Seqs`, `Wrappers`: the array operations the source uses (`indexOf`, `splice`) and `Option`.

**Recursion.** `split` re-enters itself: the words it makes are put in with `Block.insertAfter` (word.js:137,156), and that calls `split` again (block.js:51). `Words.NewWordsNormal` proves that every word a split makes has a separator only as its last char. So `WordScan.NormalIsNoSplit` makes the inner call a no-op, and the methods terminate by a small `decreases` measure.

**Where text is kept and where it is not.** In the cases below, a split keeps the document's chars, read block by block, and its `toString` (`SplitText.SplitKeepsText`):

- the split makes only new words in the word's own block;
- or it makes only new blocks.

When it makes both, the code reorders the text: `removeWordsAfter(this)` at word.js:147 runs after the same-block words were chained in after `this` at word.js:134-140. So those words are carried to the end of the last new block.

- `SplitText.SplitReorders` states the new order in general. The runs of the new blocks now come before the runs that stay in the word's block.
- `SplitText.SplitMovesText` shows it on the word that `new Document("a \nb")` builds: the text `"a \nb"` becomes `"a b\n"`.

The unit tests at `test/unit/document.spec.js:27-45` build `new Document('block one\nblock two\nblock three')`. They expect three blocks of two words each, and they expect `toString` to give the text back. By the code as written, `one\n` ends up at the end of the last block, so the first block keeps one word and the text comes out reordered. The model follows the code.

## Model

| member | source | states |
|---|---|---|
| Util.Exists | src/js/util.js:18-20 | `exists(v)` is false exactly for undefined, null and NaN, so it is true for `''`, `0` and `false` |
| Util.KindOf | src/js/util.js:22-28 | a string is a newline exactly when `isNewLine` holds and a space exactly when `isSpace` holds; otherwise it is plain |
| Util.NewLineIsNotSpace | src/js/util.js:26-28 | no string is both a newline and a space |
| Util.NewLineExactly | src/js/util.js:22-24 | `isNewLine(s)` holds iff s is non-empty and its first char is 10; `"\n"` is a newline, `"\r"`, `" "` and `""` are not |
| Util.TerminatorIsPlain | src/js/util.js:22-28 | the empty terminator is neither a newline nor a space, so it never separates |
| Util.CarriageReturnIsSpace | src/js/util.js:26-28 | a carriage return matches `\s` and is not a newline, so it is a space |
| Util.SpacesOfTheTests | src/js/util.js:26-28 | tab, VT, FF, NBSP and U+2000 to U+2003 are spaces, and so is `" \t "`; `"a "` and `"\n"` are not |
| Chars.Set | src/js/word.js:49-64 | `props[name] = v` makes the property read v and leaves every other property as it was |
| Chars.New | src/js/char.js:13-18 | a new Char holds `char` when given one and `''` otherwise, and no property is on |
| Chars.OnNames | src/js/char.js:22-30 | every name `getProps` collects is a key whose value is true, and there are at most as many names as keys |
| Chars.OnNamesComplete | src/js/char.js:22-30 | every key whose value is true is collected |
| Chars.GetProps | src/js/char.js:22-30 | the push loop returns exactly the truthy keys in key order |
| Chars.ToJson | src/js/char.js:32-44 | the id is `'c' + id` and the children are `getProps()`; a newline is named `\n`, other whitespace `[ ]`, anything else by its text |
| Chars.ToHtml | src/js/char.js:46-52 | `toHTML` gives the same string as `toString` |
| Chars.NewHasNoProps | src/js/char.js:13-30 | `getProps` of a fresh Char is empty |
| Seqs.IndexOf | src/js/word.js:178 | `indexOf` is the first position holding x, or -1 exactly when x is absent |
| Seqs.RemoveFirst | src/js/word.js:222-225 | removing a present element takes out one copy of it and leaves the other elements; an absent one leaves the list as it was |
| Seqs.CutAfter | src/js/block.js:88-95 | kept and returned words join back to the old list; nothing is returned iff ref is absent or last; otherwise the kept part ends with the first ref |
| Seqs.InsertAfterElems | src/js/block.js:42-49 | splicing in after ref adds exactly the new elements |
| Seqs.InsertBeforeElems | src/js/block.js:69-74 | splicing in before ref adds exactly the new elements |
| Seqs.InsertAfterLands | src/js/block.js:42-49 | a new element is found right after ref, or last when ref is null or absent |
| Seqs.InsertBeforeLands | src/js/block.js:69-74 | a new element is found right at ref, or first when ref is null or absent |
| Seqs.InsertAfterSlices | src/js/block.js:42-49 | the new elements sit right after ref, or at the end when ref is null or absent; the old elements keep their order around them |
| Seqs.InsertBeforeSlices | src/js/block.js:69-74 | the new elements sit right at ref, or at the front when ref is null or absent; the old elements keep their order |
| Seqs.RemoveFirstSlices | src/js/block.js:104-106 | the first occurrence goes; what was before and after it stays in order |
| Seqs.RemoveUndoesInsertAfter | src/js/block.js:42-49 | taking out what `insertAfter` put in gives the old list back |
| Seqs.RemoveUndoesInsertBefore | src/js/block.js:69-74 | taking out what `insertBefore` put in gives the old list back |
| Seqs.CutAfterInserted | src/js/word.js:134-147 | cutting after w once words were chained in after w keeps the list up to w; the chained words lead the cut-off part |
| Tree.SetAllAt | src/js/word.js:28-30 | the `forEach` that sets `parent` gives every listed object the new parent and leaves every other object alone |
| Tree.BlocksCharsIsWords | src/js/block.js:116-120 | the chars of a list of blocks, read block by block, are the chars of their words read in order |
| Tree.BlockStringIsText | src/js/block.js:134-136 | a block's `toString` is the text of its chars: joining words adds nothing between them |
| Tree.DocStringIsText | src/js/document.js:168-170 | the document's `toString` is the text of all its chars in tree order |
| Tree.UnitsOf | src/js/word.js:22 | `''` gives one empty unit; any other string gives one unit per Dafny `char` |
| Tree.AddCharKeeps | src/js/char.js:13-18 | a new Char takes a fresh id and keeps the store well formed |
| Tree.AddWordFresh | src/js/word.js:15-16 | a new Word takes a fresh id and its parent; no other word changes |
| Tree.AddWordNoText | src/js/word.js:18-19 | undefined or null text gives a word with no chars |
| Tree.AddWordUnits | src/js/word.js:20-25 | a string gives one fresh Char per unit, each holding its unit and having the word as parent |
| Tree.AddWordAdopt | src/js/word.js:26-30 | an array is taken as is; the word becomes the parent of each element and of nothing else |
| Tree.AddWordKeeps | src/js/word.js:15-32 | all three forms of the Word constructor keep the store well formed |
| Tree.UnitsWordSteps | src/js/word.js:16-25 | taking the id and an empty list, then pushing one Char per unit, is the string form of the constructor |
| Tree.AddBlockForms | src/js/block.js:11-22 | no or empty words give one new word holding one new `''` Char; otherwise the block adopts the words |
| Tree.AddBlockKeeps | src/js/block.js:11-22 | the Block constructor keeps the store well formed |
| Tree.AddBlockEmptySteps | src/js/block.js:14-15 | the block id, then `new Char('')`, then `new Word([char], this)` is the empty form of the constructor |
| Tree.SplicedAfterKeeps | src/js/block.js:40-49 | the splice of `Block.insertAfter` keeps the store well formed |
| Tree.SplicedBeforeKeeps | src/js/block.js:67-74 | the splice of `Block.insertBefore` keeps the store well formed |
| Tree.SplicedAfterLands | src/js/block.js:40-49 | the word gets the block as parent and lands after ref, or last; other blocks keep their lists; removing it gives the old list |
| Tree.SplicedBeforeLands | src/js/block.js:67-74 | the word gets the block as parent and lands at ref, or first; other blocks keep their lists; removing it gives the old list |
| Tree.WordsCutSplits | src/js/block.js:88-95 | the block keeps a prefix and the removed words are the rest; nothing is removed iff ref is absent or last; otherwise the kept part ends with ref |
| Tree.WordsCutKeeps | src/js/block.js:88-95 | `removeWordsAfter` keeps the store well formed |
| Tree.BlockInsertedKeeps | src/js/document.js:127-142 | `Document.insertAfter` keeps the store well formed |
| Tree.BlockRemovedKeeps | src/js/document.js:148-154 | `removeBlock` keeps the store well formed |
| Tree.BlockRemovedFacts | src/js/document.js:148-154 | a present block leaves the list, the others keep their order, and its parent is cleared; an absent block changes nothing |
| Tree.BlockRemovedUndoesInserted | src/js/document.js:127-154 | a block goes in after ref, or last; removing it again gives the old list and clears its parent |
| Tree.EmptyDocumentFacts | src/js/document.js:11-17 | a fresh document is well formed and has one attached block; `chars` is the tail alone and agrees with the tree; the text is empty |
| Tree.EmptyDocumentBuilt | src/js/document.js:12-17 | the constructor's steps build exactly that document: block 0, Char 1, Word 2 |
| WordScan.Scan | src/js/word.js:81-131 | the `forEach` with its five accumulators and the wrap-up compute the plan `PlanOf` |
| WordScan.StepKeepsInv | src/js/word.js:82-108 | one turn of the loop body keeps the invariant of the accumulators |
| WordScan.ScanInv | src/js/word.js:81-109 | after i chars, the closed runs and the current run spell the first i chars; every closed run ends in its only separator; blocks are counted by newlines |
| WordScan.CloseRun | src/js/word.js:86-99 | a separator that is not the last char closes a normal run ending in it |
| WordScan.GroupRuns | src/js/word.js:92-107 | inside a new block a closed run joins that block, and a newline shuts the block |
| WordScan.FinishFacts | src/js/word.js:111-131 | the wrap-up puts the lingering chars and block in place and gives a good plan |
| WordScan.PlanIsGood | src/js/word.js:81-131 | the plan is a partition of the chars in order (kept run, same-block runs, block groups); runs are non-empty with a separator only last; one non-empty group per newline before the last char; no same-block runs iff the kept run ends in a newline |
| WordScan.NormalIsNoSplit | src/js/word.js:83-114 | the split does nothing iff no separator comes before the last char |
| WordScan.SingleSeparator | src/js/word.js:81-131 | with one separator before the last char, the split happens iff it is a separator; then it makes only same-block words or only a new block |
| Words.SplitHalves | src/js/word.js:74-159 | a split that does something is its first half (words) and then its second half (blocks) |
| Words.SplitNoop | src/js/word.js:111-114 | a word with no separator before its last char is left as it is |
| Words.NewWordsNormal | src/js/word.js:94-124 | every word a split makes holds a normal run, so the nested `split` calls do nothing |
| Words.SiblingsStayNormal | src/js/word.js:147-157 | the words moved to the last new block are normal, so their re-insertion splits nothing |
| Words.RegroupReady | src/js/word.js:143-158 | after the first half, the second half can run and is the regrouping |
| Words.IdGroupsNonEmpty | src/js/word.js:101-131 | each new block gets at least one word |
| Words.ChainIsInsert | src/js/word.js:134-140 | inserting fresh words one after another, starting after w, is one splice of all of them after w |
| Words.ChainedStep | src/js/word.js:136-139 | one turn of that loop puts the next word after the one before it |
| Words.WithBlocksStep | src/js/word.js:148-152 | one turn of the block loop makes the block and inserts it after the block before |
| Words.AppendedStep | src/js/word.js:155-157 | one turn of the last loop appends the next cut-off word to the last block |
| Words.SetOnSnoc | src/js/word.js:50-53 | one turn of the first `toggleProp` loop sets the prop of a char that had it falsy and leaves a truthy one |
| Words.SetOffSnoc | src/js/word.js:63 | one turn of the second loop sets the prop to false |
| Words.SetOnAt | src/js/word.js:49-54 | after the first loop every char of the word has the prop on; other chars are untouched |
| Words.SetOnKeeps | src/js/word.js:49-54 | the first loop changes only that prop |
| Words.AnyOffSnoc | src/js/word.js:49-54 | `setTrue` ends true exactly when some char had the prop falsy before the loop |
| Words.SetOffAt | src/js/word.js:61-65 | after the second loop every char of the word has the prop false; nothing else changes |
| Words.ToggleFacts | src/js/word.js:42-66 | after `toggleProp(p)` every char of the word has the same value for p, and it is true iff some char had p falsy; text, other props and other chars are unchanged |
| Words.CharsAddedAfterLands | src/js/word.js:174-184 | each inserted char gets the word as parent; the chars land right after refChar, or at the end; other words keep their chars |
| Words.CharsAddedBeforeLands | src/js/word.js:202-211 | each inserted char gets the word as parent; the chars land right before refChar, or at the front; other words keep their chars |
| Words.CharRemovedFacts | src/js/word.js:221-226 | the first occurrence of the char goes and the rest keep their order; an absent char leaves the store unchanged |
| SplitFacts.WithWordsKeeps | src/js/word.js:94-124 | making a word for each run keeps the store well formed |
| SplitFacts.ChainedKeeps | src/js/word.js:134-140 | chaining the same-block words in keeps the store well formed |
| SplitFacts.WithBlocksKeeps | src/js/word.js:148-152 | making and inserting the new blocks keeps the store well formed |
| SplitFacts.AppendedKeeps | src/js/word.js:155-157 | appending the cut-off words keeps the store well formed |
| SplitFacts.SplitRunsKeeps | src/js/word.js:117-140 | the first half of a split keeps the store well formed |
| SplitFacts.RegroupKeeps | src/js/word.js:143-158 | the second half keeps the store well formed |
| SplitFacts.SplitKeeps | src/js/word.js:74-159 | `split` keeps the store well formed |
| SplitFacts.SplitRunsChars | src/js/word.js:94-124 | the word keeps its first run, and the new words get the other runs in order, with ids from `next` on |
| SplitFacts.SplitGroupsIds | src/js/word.js:94-131 | the words of the new blocks take the ids right after the same-block words, group by group |
| WordOrder.TackConcat | src/js/word.js:155-157 | moving the cut-off words to the last group keeps the groups and adds those words at the end |
| WordOrder.ChainedOrder | src/js/word.js:134-140 | the same-block words land right after w in the document's word list |
| WordOrder.RegroupOrder | src/js/word.js:143-157 | cutting after w, adding a block per group after w's block and moving the cut-off words last puts the groups' words, then the cut-off words, right after w |
| WordOrder.SplitRunsLists | src/js/word.js:117-140 | the first half changes only w's block, which gets the same-block words chained in |
| WordOrder.RegroupLists | src/js/word.js:143-157 | the second half chains the new blocks after b, gives them the groups and gives the last one the cut-off words |
| WordOrder.SplitOrderSame | src/js/word.js:134-140 | without new blocks, the new words follow w in the order they were made |
| WordOrder.SplitOrderNewBlocks | src/js/word.js:143-157 | with new blocks, the words of the new blocks follow w and the same-block words come after them |
| WordOrder.SplitWordOrder | src/js/word.js:134-157 | a split puts every word it makes right after w, new-block words first, and leaves every other word where it was |
| SplitText.SplitChars | src/js/word.js:94-124 | a split gives w its first run and each new word one more run, and changes no Char |
| SplitText.SplitOrderInOrder | src/js/word.js:134-157 | with only one kind of new word, the new words follow w in the order of their runs |
| SplitText.InsertedChars | src/js/word.js:117-140 | words holding the runs put right after w, in the runs' order, with w keeping the first run, hold w's old chars in place |
| SplitText.SplitKeepsChars | src/js/word.js:74-159 | a split that makes only same-block words, or only new blocks, keeps `Flatten` and every Char |
| SplitText.SplitKeepsText | src/js/word.js:74-159 | a split that makes only same-block words, or only new blocks, keeps the document's chars read block by block and its `toString` |
| SplitText.SwappedOrderChars | src/js/word.js:134-157 | words come in the order the split leaves them; reading their chars gives the kept run, then the new blocks' runs, then the same-block runs |
| SplitText.SplitReorders | src/js/word.js:134-157 | any split: before it the chars run kept run, same-block runs, block runs; after it the block runs come before the same-block runs; the rest of the document is unchanged |
| SplitText.ScanFive | src/js/word.js:81-131 | a five-char word plain, space, newline, plain, terminator keeps two chars, makes one same-block word and one new block |
| SplitText.SplitMovesNewline | src/js/word.js:81-157 | on that word the split moves the newline behind the last plain char of the document's chars |
| SplitText.SplitMovesText | src/js/word.js:74-159 | on any placed word holding `a`, space, newline, `b` and the terminator, as `new Document("a \nb")` builds, the text `"a \nb"` becomes `"a b\n"` in place |
| Blocks.TakenOutFacts | src/js/block.js:104-108 | the splice of `removeWord` takes one copy of a present word out of the list and clears its parent; an absent word changes nothing |
| Blocks.WordRemovedFacts | src/js/block.js:103-114 | `removeWord` removes a present word and clears its parent; a block left without words leaves the document; no chars change |
| Documents.CharAt | src/js/document.js:66-68 | `chars[i]` is a Char exactly when i is an offset of the array |
| Documents.TargetOfCases | src/js/document.js:82-95 | the branch `TargetOf` takes: in front of the char at index in its word, at the front of that word, after the char before index, or in a new word after that char's word; and no target exactly where the code calls a method of undefined |
| Documents.TargetInRange | src/js/document.js:82-95 | a target word is found only for offsets 0 to the length of `chars` |
| Documents.InsertCharsAtSteps | src/js/document.js:71-99 | `insertCharsAt` makes the Chars, places them in the tree at its target and splices them into `chars` at index |
| Documents.InsertCharsAtChars | src/js/document.js:60-100 | an empty string changes nothing; otherwise `chars` grows by the length of str, the new Chars are at index to index+len-1 in order, and the rest shift right |
| Documents.NewDocumentChars | src/js/document.js:11-22 | `new Document(text)` holds one Char per unit of text and the `''` terminator last, which stays the tail, and its `chars` read back as text |
| Documents.InsertCharsAtText | src/js/document.js:60-100 | after `insertCharsAt(index, str)` the text of `chars` is the text before index, then str, then the text from index on |
| Documents.Taken | src/js/document.js:112 | `splice(index, count)` takes count chars, clipped to the end and to none for a negative count |
| Documents.RemoveEach | src/js/document.js:114-116 | removing chars from their words changes only the words' char lists |
| Documents.RemoveCharsAtSteps | src/js/document.js:112-116 | `removeCharsAt` splices `chars` and then removes each taken Char from its parent word |
| Documents.RemoveEachTurn | src/js/document.js:114-116 | turn i of that loop removes char i from the word that is its parent |
| Documents.RemoveCharsAtChars | src/js/document.js:107-117 | no Char at index changes nothing; otherwise `chars` loses exactly the taken slice and only word char lists change besides |
| Documents.Stop | src/js/document.js:36 | the loop stops at the selection end, clipped between start and the length of `chars` |
| Documents.ToggleAll | src/js/document.js:36-47 | toggling a list of words changes only Char values |
| Documents.ToggleAllStep | src/js/document.js:44 | one more word toggled is one more `toggleProp` |
| Documents.HeadsIn | src/js/document.js:40-45 | the words toggled are exactly the parents met |
| Documents.ExecStep | src/js/document.js:39-47 | one turn of the loop toggles the char's parent iff it differs from `nextWord` and exists, then makes it `nextWord` |
| Documents.ExecActionToggles | src/js/document.js:31-49 | no Char at start changes nothing; otherwise each run of chars with the same parent toggles that parent once, in order, and the toggled words are exactly the parents in the range |
| Engine.Document.NewChar | src/js/char.js:13-18| the new Char takes the old `next` as its id and the new state is `Tree.AddChar` of the old one, which keeps the store well formed (`Tree.AddCharKeeps`) |
| Engine.Document.NewWord | src/js/word.js:15-32| returns the old `next`; the new state is `Tree.AddWord` of the old one, whose three forms `Tree.AddWordNoText`, `AddWordUnits` and `AddWordAdopt` describe |
| Engine.Document.NewUnitsWord | src/js/word.js:20-25| returns the old `next`; the new state is the word with one new Char per unit (`Tree.WithUnits`) |
| Engine.Document.NewAdoptingWord | src/js/word.js:26-30| returns the old `next`; the new state is `Tree.AdoptingWord`: the word holds the given Chars and is their parent |
| Engine.Document.PushUnits | src/js/word.js:23-25| the loop pushes one new Char per unit onto the word, in order, with consecutive ids (`Tree.PushedUnits`) |
| Engine.Document.AdoptChars | src/js/word.js:28-30| afterwards every listed Char has the word as parent and every other Char keeps its parent (`Tree.SetAll`, `Tree.SetAllAt`) |
| Engine.Document.NewBlock | src/js/block.js:11-22| returns the old `next`; the new state is `Tree.AddBlock`, whose two forms `Tree.AddBlockForms` describes |
| Engine.Document.NewEmptyBlock | src/js/block.js:14-15| the block id, then `new Char('')`, then a Word adopting it: the new state is `Tree.AddEmptyBlock` |
| Engine.Document.NewBlockOf | src/js/block.js:17-20| the block takes the words as its list and becomes their parent (`Tree.AddWordsBlock`) |
| Engine.Document.AdoptWords | src/js/block.js:18-20| afterwards every listed word has the block as parent and every other word keeps its parent |
| Engine.Document.ToggleProp | src/js/word.js:42-66| the new state is `Words.ToggleEffect`: every char of the word ends with the same value for the prop, true iff one had it falsy (`Words.ToggleFacts`) |
| Engine.Document.TurnOn | src/js/word.js:49-54| the char values become `Words.SetOn` of the old ones, and the returned `setTrue` is true iff some char had the prop falsy |
| Engine.Document.TurnOff | src/js/word.js:62-64| the char values become `Words.SetOff` of the old ones: the prop is false on every listed char |
| Engine.Document.MakeWords | src/js/word.js:94-124| one new word per run, in order, with consecutive ids, each adopting its run (`Words.WithWords`) |
| Engine.Document.Split | src/js/word.js:74-159| the new state is `Words.SplitEffect`, which keeps the store well formed (`SplitFacts.SplitKeeps`) and reorders words and text as `WordOrder.SplitWordOrder` and `SplitText.SplitReorders` state |
| Engine.Document.SplitWords | src/js/word.js:117-140| the new state is `Words.SplitRuns`: w keeps its first run, the new words get the others, and the same-block words follow w |
| Engine.Document.SplitBlocks | src/js/word.js:143-158| the new state is `Words.Regroup`: b is cut after w, one block per group follows b, and the cut-off words go to the last one |
| Engine.Document.ChainWords | src/js/word.js:134-140| the new state is `Words.Chained`: each word goes in after the one before, the first after w |
| Engine.Document.MakeBlocks | src/js/word.js:148-152| the new state is `Words.WithBlocks`, and the returned block is the last one made, or b for no groups |
| Engine.Document.AppendWords | src/js/word.js:155-157| the new state is `Words.Appended`: the cut-off words are appended to the block in order |
| Engine.Document.InsertCharsAfter | src/js/word.js:169-187| the new state is `Words.InsertCharsAfterEffect`: nothing for null chars, else the splice `Words.CharsAddedAfterLands` describes, then a split |
| Engine.Document.InsertCharsBefore | src/js/word.js:197-214| the new state is `Words.InsertCharsBeforeEffect`: nothing for null chars, else the splice `Words.CharsAddedBeforeLands` describes, then a split |
| Engine.Document.RemoveChar | src/js/word.js:221-226| the new state is `Words.CharRemoved`: the first occurrence of the char leaves the word's list (`Words.CharRemovedFacts`) |
| Engine.Document.InsertWordAfter | src/js/block.js:35-52| the new state is `Blocks.InsertWordAfterEffect`: nothing for a null word, else the splice `Tree.SplicedAfterLands` describes, then a split |
| Engine.Document.InsertWordBefore | src/js/block.js:62-77| the new state is `Blocks.InsertWordBeforeEffect`: nothing for a null word, else the splice `Tree.SplicedBeforeLands` describes, then a split |
| Engine.Document.RemoveWordsAfter | src/js/block.js:88-95| returns the words after the first ref and leaves the block with the rest (`Seqs.CutAfter`, `Tree.WordsCutSplits`) |
| Engine.Document.RemoveWord | src/js/block.js:103-114| the new state is `Blocks.WordRemoved`, which `Blocks.WordRemovedFacts` describes |
| Engine.Document.InsertBlockAfter | src/js/document.js:127-142| nothing for a null block; otherwise the block goes in after ref, or last, and is attached (`Tree.BlockInserted`) |
| Engine.Document.RemoveBlock | src/js/document.js:148-154| the new state is `Tree.BlockRemoved`, which `Tree.BlockRemovedFacts` describes |
| Engine.Document.InsertCharsAt | src/js/document.js:60-100| the new state is `Documents.InsertCharsAtEffect`; what it does to `chars` is `Documents.InsertCharsAtChars` |
| Engine.Document.Place | src/js/document.js:82-95| the new chars go into the word that the target names, or into a new word, and that word is split (`Documents.PlacedIn`) |
| Engine.Document.MakeChars | src/js/document.js:71-73| returns the consecutive ids from the old `next` on, one new parentless Char per unit (`Documents.WithChars`) |
| Engine.Document.RemoveCharsAt | src/js/document.js:107-117| the new state is `Documents.RemoveCharsAtEffect`; what it does to `chars` is `Documents.RemoveCharsAtChars` |
| Engine.Document.RemoveEachChar | src/js/document.js:114-116| the new state is `Documents.RemoveEach`: each Char leaves its parent word's list in turn |
| Engine.Document.ExecAction | src/js/document.js:31-49| the new state is `Documents.ExecActionEffect`, which toggles each parent once per run of chars (`Documents.ExecActionToggles`) |
| Engine.Document.constructor | src/js/document.js:11-22| the new state is `Documents.NewDocument(text)`: one Char per unit of text, then the terminator, and `chars` reads back as text (`Documents.NewDocumentChars`) |
| Sync.CharRemovedFlatten | src/js/word.js:221-226 | removing a char of the tree from the word that is its parent keeps the store well formed and the parents agreeing; the tree's chars lose exactly that char |
| Sync.RemoveEachFlatten | src/js/document.js:114-116 | removing distinct chars of the tree from their parent words, one after the other, takes exactly those chars out of the tree's chars and keeps the order of the rest |
| Sync.SliceRemovedSynced | src/js/document.js:112-116 | every char of a slice of `chars` has a parent word, and splicing the slice out of `chars` and then out of the tree keeps the document in step |
| Sync.RemoveCharsAtSynced | src/js/document.js:107-117 | on a document whose `chars` are the tree's chars in order, once each, each parented by the word listing it, `removeCharsAt` is always defined and keeps all of that |
| Sync.ExecActionSynced | src/js/document.js:31-49 | `execAction` is always defined on such a document and keeps it in step |
| Sync.EmptyDocumentSynced | src/js/document.js:11-17 | `new Document()` starts in step: its one char is the tree's one char |
| Normality.NormalSiblings | src/js/word.js:143-157 | when every word but w holds a separator only last, the words re-inserted after w do too, so the split's requirement on them holds |
| Normality.SplitNormalizes | src/js/word.js:74-159 | when every word but w holds a separator only last, after `w.split()` every word does |
| Normality.WithCharsNormal | src/js/document.js:71-73 | making new parentless Chars changes no word's classification |
| Normality.PlaceNormal | src/js/document.js:82-95 | the splice touches only the word that is then split, so every word is normal after the placement |
| Normality.InsertCharsAtNormal | src/js/document.js:60-100 | `insertCharsAt` keeps every word normal |
| Normality.RemoveEachNormal | src/js/document.js:114-116 | taking chars out of words keeps every word normal |
| Normality.RemoveCharsAtNormal | src/js/document.js:107-117 | `removeCharsAt` keeps every word normal |
| Normality.ExecActionNormal | src/js/document.js:31-49 | `execAction` sets props only, so it keeps every word normal |
| Normality.EmptyDocumentNormal | src/js/document.js:11-17 | the word of `new Document()` is normal |
| Normality.NewDocumentNormal | src/js/document.js:11-22 | every word of `new Document(text)` is normal |
| Shape.EmptyDocumentShaped | src/js/document.js:11-17 | `new Document()` lists no block or word twice, its word's parent is its block and its block is attached |
| Shape.RemoveCharsAtShaped | src/js/document.js:107-117 | `removeCharsAt` changes only lists of chars, so it keeps that shape |
| Shape.ExecActionShaped | src/js/document.js:31-49 | `execAction` changes only Char values, so it keeps that shape |
| Shape.NewWordShaped | src/js/block.js:40-49 | a fresh word listed after p in p's block, with that block as parent, keeps the shape |
| Shape.SplitRunsShaped | src/js/word.js:117-140 | the first half of the split keeps the shape, keeps the blocks, and the words of the document stay below the ids of the blocks to come |
| Shape.RegroupShaped | src/js/word.js:143-158 | the second half keeps the shape: the new blocks follow w's block, attached, each the parent of its words, and the cut-off words belong to the last one |
| Shape.SplitShaped | src/js/word.js:74-159 | `word.split()` on a placed word keeps the shape |
| InsertSync.SplitCharParents | src/js/word.js:94-124 | the split makes each new word the parent of its run, touches no other char's parent and leaves `chars` alone |
| InsertSync.FilledParentsAgree | src/js/word.js:94-124 | after the runs are dealt out, every word lists only chars that have it as parent |
| InsertSync.SplitAgrees | src/js/word.js:74-159 | a split that makes one kind of new word keeps the tree's chars and their order, keeps parents agreeing, and changes neither `chars` nor any Char value |
| InsertSync.CharSits | src/js/document.js:75-79 | the char at offset k of a synced, shaped document sits in its parent word, which is placed, at the offset k names |
| InsertSync.BeforeNextSplice | src/js/document.js:82-84 | putting the new chars in front of the char at index puts them at index in the tree's chars |
| InsertSync.FrontOfNextSplice | src/js/document.js:85-87 | putting them at the front of the next word puts them at index: the char at index is the first of its word |
| InsertSync.AfterPrevSplice | src/js/document.js:92-94 | putting them after the char before index puts them at index |
| InsertSync.NewWordAtEnd | src/js/document.js:88-91 | a new word is made only at the end of a synced document, after its last word |
| InsertSync.NewWordSplice | src/js/document.js:88-91 | the new word lands after the last word, so its chars land at the end of the tree's chars |
| InsertSync.TargetSplice | src/js/document.js:82-95 | whichever branch is taken, the tree splice puts the new chars where the `chars` splice at document.js:99 puts them |
| InsertSync.InsertCharsAtSynced | src/js/document.js:60-100 | `insertCharsAt` keeps a synced, shaped document synced when its split makes one kind of new word |
| InsertSync.InsertCharsAtShaped | src/js/document.js:60-100 | under the same condition, `insertCharsAt` keeps the shape |
| InsertSync.NewDocumentSynced | src/js/document.js:11-22 | `new Document(text)` is synced and shaped when the split of its word makes one kind of new word |
| Invariants.EmptyDocumentConsistent | src/js/document.js:11-17 | `new Document()` is synced, shaped and has only normal words |
| Invariants.RemoveCharsAtConsistent | src/js/document.js:107-117 | `removeCharsAt` is defined on every consistent document and keeps it consistent |
| Invariants.ExecActionConsistent | src/js/document.js:31-49 | `execAction` is defined on every consistent document and keeps it consistent |
| Invariants.InsertCharsAtConsistent | src/js/document.js:60-100 | `insertCharsAt` keeps a consistent document consistent when its split makes one kind of new word |
| Invariants.NewDocumentConsistent | src/js/document.js:11-22 | under the same condition, `new Document(text)` is consistent |
| Invariants.TargetFound | src/js/document.js:75-95 | on a consistent document with chars, a word to insert into is found at every offset from 0 to the length of `chars` |
| Invariants.InsertCharsAtDefined | src/js/document.js:60-100 | there `insertCharsAt` is defined for every string: the split it ends in runs on a word with an attached block while every other word is normal |
| Invariants.IntoNewWord | src/js/document.js:88-91 | the new word made at the end sits in an attached block, and every other word is normal, so its split is covered |

## Left out

- The DOM and editor glue are left out because they are browser plumbing: `Util.on`, `createHTMLWordString`, `exportSelection` and `importSelection` (util.js:30-133), and all of `src/js/words.js`. The root `words.js` prototype and the build scripts are left out too.
- `toJSON` of Word, Block and Document and `toHTML` of Word and Block are not modelled. They are output formatting; only the Char's `toJSON` and `toHTML` are modelled.
- `Word.getChars` returns its array and is the store's `wordChars` entry; it has no lemma of its own.
- Util.Exists: numbers are integers plus NaN. JavaScript's other doubles and `-0` are not modelled: `exists` treats them all alike.
- Util.KindOf: text outside the Basic Multilingual Plane is not modelled. A Dafny `char` is a Unicode scalar value, so no surrogate, paired or lone, can be stated. A `char` above U+FFFF counts as one unit in `Tree.UnitsOf` and `Documents.InsertCharsAtChars`, where `str.split('')` (document.js:71) and `Array.prototype.slice.call(text)` (word.js:22) make two Chars of it, one per surrogate; the model's statements hold for text whose chars are all below U+10000.
- Engine.Document.Split requires `SplitOK`. The word must have a parent block, and an attached one when new blocks are made; otherwise the code calls a method of undefined (word.js:137,150). When new blocks are made, the words after w in its block must already hold a separator only last. Their re-insertion at word.js:156 splits each of them again, and the model covers only the case where that does nothing. The same requirement reaches `InsertCharsAfter`, `InsertCharsBefore`, `InsertWordAfter`, `InsertWordBefore` and `InsertCharsAt`. Every operation keeps every word normal (the `Normality` lemmas), so `Normality.NormalSiblings` discharges this part whenever only the word being split may be off; `Invariants.InsertCharsAtDefined` discharges all of `InsertCharsAt`'s requirement on a consistent document, and `Documents.NewDocumentDefined` shows the constructor's requirement holds for every text.
- Engine.Document.InsertCharsAt requires a target word. At offsets where the code would call a method of undefined (document.js:83,90), the model states a precondition where the code throws.
- Engine.Document.RemoveWord requires that a block which becomes empty is attached, because `this.parent.removeBlock` of a detached block throws.
- SplitText.SplitKeepsText and the other text and order lemmas about a split assume `Placed`: w is in its parent's list, that block appears once in the document, and no word appears twice. `Shape.Shaped` implies it for every word of the document, and `removeCharsAt`, `execAction`, `split` and the constructors keep `Shaped` (the `Shape` lemmas); `insertCharsAt` keeps it when its split makes one kind of new word.
- InsertSync.InsertCharsAtSynced, InsertSync.InsertCharsAtShaped and Invariants.InsertCharsAtConsistent require that the split at the end of `insertCharsAt` makes new words of one kind only (`InsertSync.SplitsOneWay`). When it makes both kinds, word.js:147 reorders the tree and `chars` no longer follows it (`SplitText.SplitReorders`), so no invariant tying `chars` to the tree can be kept there.
- InsertSync.NewDocumentSynced and Invariants.NewDocumentConsistent carry the same condition for the split of the one word of `new Document(text)`; a text such as `"a \nb"` breaks it (`SplitText.SplitMovesText`).
- Invariants.InsertCharsAtDefined asks for a non-empty `chars`. `removeCharsAt` can remove the terminator too, and on an empty `chars` the code finds no word and throws (document.js:83).
- Chars.Get and Words.ToggleEffect treat a prop as unset unless it is an own key of `props`. In the source `props` is a plain object, so names inherited from `Object.prototype` such as `constructor` or `toString` read as truthy at word.js:50, and `__proto__` cannot be set to false; the model does not reproduce that. `Object.keys` also lists integer-like keys first, while the model keeps keys in the order they were first set, which `Chars.GetProps` then follows.
- Documents.RemoveCharsAtChars states the new `chars` array and that only word char lists change. Each word's new list is stated one removal at a time (`Documents.RemoveEachTurn` with `Words.CharRemovedFacts`), not for the loop as a whole.
- Words that `split` makes during its scan are given ids after the scan, in the same order. The source allocates them during the scan, but nothing in the core can observe the difference.
- Behaviour that the unit tests expect but the source does not have is not modelled: merges, removal return values, clearing of parents on `removeChar` and `removeWordsAfter`, and getters such as `getFirstWord`.
