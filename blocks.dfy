/**
 * The operations of a Block (src/js/block.js) that either end in `word.split()` or may
 * remove the block from its document.  The plain splices they start with are in Tree.
 */
module Blocks {
  import opened Wrappers
  import opened Seqs
  import opened Tree
  import opened Words

  /** `block.insertAfter(refWord, word)` (block.js:35-52): nothing for a null word, else splice and split. */
  ghost function InsertWordAfterEffect(h: Heap, b: BlockId, ref: Option<WordId>, v: Option<WordId>): Heap
    requires b in h.blockWords
    requires v.Some? ==> CanSplit(SplicedAfter(h, b, ref, v.value), v.value)
  {
    if v.None? then h else SplitEffect(SplicedAfter(h, b, ref, v.value), v.value)
  }

  /** `block.insertBefore(refWord, word)` (block.js:62-77). */
  ghost function InsertWordBeforeEffect(h: Heap, b: BlockId, ref: Option<WordId>, v: Option<WordId>): Heap
    requires b in h.blockWords
    requires v.Some? ==> CanSplit(SplicedBefore(h, b, ref, v.value), v.value)
  {
    if v.None? then h else SplitEffect(SplicedBefore(h, b, ref, v.value), v.value)
  }

  /** The splice of `block.removeWord(word)` (block.js:104-108). */
  function WordTakenOut(h: Heap, b: BlockId, v: WordId): Heap
    requires b in h.blockWords
  {
    if v in h.blockWords[b] then
      h.(blockWords := h.blockWords[b := RemoveFirst(h.blockWords[b], v)], wordParent := h.wordParent[v := None])
    else h
  }

  /**
   * What `block.removeWord(word)` needs: a block left with no words calls
   * `this.parent.removeBlock(this)` (block.js:111-113), so its parent must be the document.
   */
  ghost predicate CanRemoveWord(h: Heap, b: BlockId, v: WordId)
  {
    b in h.blockWords && b in h.blockAttached && (WordTakenOut(h, b, v).blockWords[b] == [] ==> h.blockAttached[b])
  }

  /** `block.removeWord(word)` (block.js:103-114). */
  function WordRemoved(h: Heap, b: BlockId, v: WordId): Heap
    requires b in h.blockWords
  {
    var h1 := WordTakenOut(h, b, v);
    if h1.blockWords[b] == [] then BlockRemoved(h1, b) else h1
  }

  /**
   * `block.removeWord(word)` takes a word it holds out of its list and clears the word's
   * parent, and leaves the list alone otherwise; a block left without words is removed from
   * the document; no word's chars change (block.js:103-114).
   */
  lemma {:induction false} WordRemovedFacts(h: Heap, b: BlockId, v: WordId)
    requires b in h.blockWords
    ensures var r, ws := WordRemoved(h, b, v), h.blockWords[b];
      && b in r.blockWords
      && (v in ws ==> multiset(r.blockWords[b]) == multiset(ws) - multiset{v} && r.wordParent == h.wordParent[v := None])
      && (v !in ws ==> r.blockWords == h.blockWords && r.wordParent == h.wordParent)
      && (forall x: BlockId :: x in h.blockWords && x != b ==> x in r.blockWords && r.blockWords[x] == h.blockWords[x])
      && (r.blockWords[b] != [] ==> r.blocks == h.blocks)
      && (r.blockWords[b] == [] && b in h.blocks ==> r.blocks == RemoveFirst(h.blocks, b) && !r.blockAttached[b])
      && r.wordChars == h.wordChars && r.chars == h.chars && r.charValue == h.charValue
  {
    TakenOutFacts(h, b, v);
    var h1 := WordTakenOut(h, b, v);
    if h1.blockWords[b] == [] {
      BlockRemovedFacts(h1, b);
    }
  }

  /** The splice of `removeWord` touches only b's list and the word's parent. */
  lemma {:induction false} TakenOutFacts(h: Heap, b: BlockId, v: WordId)
    requires b in h.blockWords
    ensures var r, ws := WordTakenOut(h, b, v), h.blockWords[b];
      && b in r.blockWords
      && (v in ws ==> multiset(r.blockWords[b]) == multiset(ws) - multiset{v} && r.wordParent == h.wordParent[v := None])
      && (v !in ws ==> r == h)
      && r.(blockWords := h.blockWords, wordParent := h.wordParent) == h
      && (forall x: BlockId :: x in h.blockWords && x != b ==> x in r.blockWords && r.blockWords[x] == h.blockWords[x])
  {
  }
}
