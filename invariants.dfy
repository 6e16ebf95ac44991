/**
 * The state a Document's operations keep together: `chars` reads the tree (`Sync.Synced`),
 * the tree has the shape the operations take for granted (`Shape.Shaped`) and every word is
 * normal (`Normality.AllWordsNormal`).  In that state `insertCharsAt` is defined at every
 * offset of `chars` and right after it, which is where document.js:82-95 finds a word.
 */
module Invariants {
  import opened Wrappers
  import opened Seqs
  import opened WordScan
  import opened Tree
  import opened Words
  import opened Documents
  import opened WordOrder
  import opened Sync
  import opened Normality
  import opened InsertSync
  import opened Shape

  /** The three invariants a Document keeps. */
  ghost predicate Consistent(h: Heap)
  {
    Synced(h) && Shaped(h) && AllWordsNormal(h)
  }

  /** `new Document()` (document.js:11-17) starts consistent. */
  lemma {:induction false} EmptyDocumentConsistent()
    ensures Consistent(EmptyDocument())
  {
    EmptyDocumentSynced();
    EmptyDocumentShaped();
    EmptyDocumentNormal();
  }

  /** `removeCharsAt` (document.js:107-117) is always defined on a consistent document and keeps it so. */
  lemma {:induction false} RemoveCharsAtConsistent(h: Heap, index: int, count: int)
    requires Consistent(h)
    ensures CanRemoveCharsAt(h, index, count) && Consistent(RemoveCharsAtEffect(h, index, count))
  {
    RemoveCharsAtSynced(h, index, count);
    RemoveCharsAtShaped(h, index, count);
    RemoveCharsAtNormal(h, index, count);
  }

  /** `execAction` (document.js:31-49) is always defined on a consistent document and keeps it so. */
  lemma {:induction false} ExecActionConsistent(h: Heap, action: string, start: int, end: int)
    requires Consistent(h)
    ensures CanExecAction(h, start, end) && Consistent(ExecActionEffect(h, action, start, end))
  {
    ExecActionSynced(h, action, start, end);
    ExecActionShaped(h, action, start, end);
    ExecActionNormal(h, action, start, end);
  }

  /** `insertCharsAt` keeps a consistent document consistent when its split makes words of one kind. */
  lemma {:induction false} InsertCharsAtConsistent(h: Heap, index: int, str: string)
    requires Consistent(h) && SplitsOneWay(h, index, str)
    ensures Consistent(InsertCharsAtEffect(h, index, str))
  {
    InsertCharsAtSynced(h, index, str);
    InsertCharsAtShaped(h, index, str);
    InsertCharsAtNormal(h, index, str);
  }

  /** `new Document(text)` (document.js:11-22) is consistent when the split of its one word makes words of one kind. */
  lemma {:induction false} NewDocumentConsistent(text: string)
    requires SplitsOneWay(EmptyDocument(), 0, text)
    ensures Consistent(NewDocument(text))
  {
    NewDocumentSynced(text);
    NewDocumentNormal(text);
  }

  /**
   * On a consistent document with chars, `insertCharsAt(index, str)` finds a word for every
   * index from 0 to the length of `chars`, and the split it ends in is one the model covers:
   * the word it runs on has an attached block and every other word is normal
   * (document.js:78-95, word.js:137,150-156).
   */
  lemma {:induction false} InsertCharsAtDefined(h: Heap, index: int, str: string)
    requires Consistent(h) && h.chars != [] && 0 <= index <= |h.chars|
    ensures CanInsertCharsAt(h, index, str)
  {
    if str != "" {
      TargetFound(h, index);
      PlaceDefined(h, index, str, TargetOf(h, index).value);
    }
  }

  /** Every char of `chars` has a parent, and the last word has a block: a target is found. */
  lemma {:induction false} TargetFound(h: Heap, index: int)
    requires Synced(h) && Shaped(h) && h.chars != [] && 0 <= index <= |h.chars|
    ensures TargetOf(h, index).Some?
  {
    var x := CharSits(h, if index < |h.chars| then index else index - 1);
  }

  /** Whichever target is found, the split that follows the splice is one the model covers. */
  lemma {:induction false} PlaceDefined(h: Heap, index: int, str: string, t: Target)
    requires Consistent(h) && TargetOf(h, index) == Some(t)
    ensures CanPlace(h, str, t)
  {
    match t
    case BeforeNext(w, ref) => NextDefined(h, index, str, w, ref);
    case FrontOfNext(w) => NextDefined(h, index, str, w, None);
    case AfterPrev(w, ref) => PrevDefined(h, index, str, w, ref);
    case NewWordAfter(b, p) => EndDefined(h, index, str, b, p);
  }

  /** The chars `insertCharsAt` makes, on a consistent document: a well-formed store with every word normal. */
  lemma {:induction false} MadeChars(h: Heap, str: string)
    requires Consistent(h)
    ensures var h1 := WithChars(h, UnitsOf(str));
      && WellFormed(h1) && AllWordsNormal(h1)
      && h1.blockWords == h.blockWords && h1.wordParent == h.wordParent && h1.wordChars == h.wordChars
      && h1.blockAttached == h.blockAttached && h1.next == h.next + |UnitsOf(str)|
      && forall c: CharId :: c in Ids(h.next, |UnitsOf(str)|) ==> c in h1.charValue
  {
    WithCharsKeeps(h, UnitsOf(str));
    WithCharsNormal(h, UnitsOf(str));
  }

  /** The new chars go into the word of the char at index (document.js:82-87). */
  lemma {:induction false} NextDefined(h: Heap, index: int, str: string, w: WordId, ref: Option<CharId>)
    requires Consistent(h)
    requires TargetOf(h, index) == Some(BeforeNext(w, ref)) || (ref.None? && TargetOf(h, index) == Some(FrontOfNext(w)))
    ensures CanPlace(h, str, TargetOf(h, index).value)
  {
    var us := UnitsOf(str);
    var h1, ids := WithChars(h, us), Ids(h.next, |us|);
    MadeChars(h, str);
    NextCharIn(h, index, w);
    var x := CharSits(h, index);
    BeforeDefined(h, h1, w, ref, ids);
  }

  /** The new chars go after the char before index, in its word (document.js:92-94). */
  lemma {:induction false} PrevDefined(h: Heap, index: int, str: string, w: WordId, ref: CharId)
    requires Consistent(h) && TargetOf(h, index) == Some(AfterPrev(w, ref))
    ensures CanPlace(h, str, AfterPrev(w, ref))
  {
    var us := UnitsOf(str);
    var h1, ids := WithChars(h, us), Ids(h.next, |us|);
    MadeChars(h, str);
    PrevCharIn(h, index, w, ref);
    var x := CharSits(h, index - 1);
    AfterDefined(h, h1, w, ref, ids);
  }

  /** The new chars go into a new word after the last word p, in its block b (document.js:88-91). */
  lemma {:induction false} EndDefined(h: Heap, index: int, str: string, b: BlockId, p: WordId)
    requires Consistent(h) && TargetOf(h, index) == Some(NewWordAfter(b, p))
    ensures CanPlace(h, str, NewWordAfter(b, p))
  {
    var us := UnitsOf(str);
    var h1, ids := WithChars(h, us), Ids(h.next, |us|);
    MadeChars(h, str);
    NewWordAtEnd(h, index, b, p);
    IntoNewWord(h, h1, b, p, ids);
  }

  /** New chars put in front of ref in the placed word w (word.js:197-214). */
  lemma {:induction false} BeforeDefined(h: Heap, h1: Heap, w: WordId, ref: Option<CharId>, ids: seq<CharId>)
    requires Shaped(h) && WordOrder.Placed(h, w) && WellFormed(h1) && AllWordsNormal(h1)
    requires h1.blockWords == h.blockWords && h1.wordParent == h.wordParent && h1.wordChars == h.wordChars
    requires h1.blockAttached == h.blockAttached && forall c: CharId :: c in ids ==> c in h1.charValue
    ensures w in h1.wordChars && SplitOK(CharsAddedBefore(h1, w, ref, ids), w)
  {
    CharsAddedBeforeKeeps(h1, w, ref, ids);
    IntoWord(h, h1, w, InsertBefore(h1.wordChars[w], ref, ids), CharsAddedBefore(h1, w, ref, ids));
  }

  /** New chars put after ref in the placed word w (word.js:169-187). */
  lemma {:induction false} AfterDefined(h: Heap, h1: Heap, w: WordId, ref: CharId, ids: seq<CharId>)
    requires Shaped(h) && WordOrder.Placed(h, w) && WellFormed(h1) && AllWordsNormal(h1)
    requires h1.blockWords == h.blockWords && h1.wordParent == h.wordParent && h1.wordChars == h.wordChars
    requires h1.blockAttached == h.blockAttached && forall c: CharId :: c in ids ==> c in h1.charValue
    ensures w in h1.wordChars && SplitOK(CharsAddedAfter(h1, w, Some(ref), ids), w)
  {
    CharsAddedAfterKeeps(h1, w, Some(ref), ids);
    IntoWord(h, h1, w, InsertAfter(h1.wordChars[w], Some(ref), ids), CharsAddedAfter(h1, w, Some(ref), ids));
  }

  /** The block of a placed word of a shaped store is attached. */
  lemma {:induction false} PlacedAttached(h: Heap, w: WordId)
    requires Shaped(h) && WordOrder.Placed(h, w)
    ensures var b := h.wordParent[w].value; b in h.blockAttached && h.blockAttached[b]
  {
  }

  /**
   * New chars spliced into the list of a placed word w, on the store h1 that holds them:
   * the split of w that follows is one the model covers.
   */
  lemma {:induction false} IntoWord(h: Heap, h1: Heap, w: WordId, l: seq<CharId>, hp: Heap)
    requires Shaped(h) && WordOrder.Placed(h, w) && AllWordsNormal(h1) && WellFormed(hp)
    requires hp.blockWords == h.blockWords && hp.wordParent == h.wordParent && hp.blockAttached == h.blockAttached
    requires hp.wordChars == h1.wordChars[w := l] && hp.charValue == h1.charValue
    ensures SplitOK(hp, w)
  {
    PlacedAttached(h, w);
    NormalSiblings(hp, w);
  }

  /**
   * A fresh word v holding the new chars, listed after p in p's block b: the split of v that
   * follows is one the model covers (document.js:88-91).
   */
  lemma {:induction false} IntoNewWord(h: Heap, h1: Heap, b: BlockId, p: WordId, ids: seq<CharId>)
    requires Shaped(h) && WordOrder.Placed(h, p) && h.wordParent[p] == Some(b)
    requires WellFormed(h1) && AllWordsNormal(h1) && forall c: CharId :: c in ids ==> c in h1.charValue
    requires h1.blockWords == h.blockWords && h1.blockAttached == h.blockAttached
    ensures var hs := AddWord(h1, Adopt(ids), None);
      b in hs.blockWords && SplitOK(SplicedAfter(hs, b, Some(p), h1.next), h1.next)
  {
    var v := h1.next;
    var hs := AddWord(h1, Adopt(ids), None);
    AddWordAdoptKeeps(h1, ids, None);
    AddWordAdopt(h1, ids, None);
    SplicedAfterKeeps(hs, b, Some(p), v);
    PlacedAttached(h, p);
    var hp := SplicedAfter(hs, b, Some(p), v);
    assert NormalBut(hp, v) by {
      forall u: WordId | u in hp.wordChars && u != v ensures Normal(hp.wordChars[u], KindIn(hp.charValue)) {
        assert hp.wordChars[u] == h1.wordChars[u];
      }
    }
    NormalSiblings(hp, v);
  }
}
