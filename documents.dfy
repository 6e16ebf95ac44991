/**
 * The editing operations of a Document (src/js/document.js) as changes of the store:
 * inserting and removing text by offset into `chars`, applying a formatting action to a
 * range, and building a document from a string.
 */
module Documents {
  import opened Wrappers
  import opened Util
  import opened Seqs
  import opened WordScan
  import opened Tree
  import opened Words
  import opened Blocks
  import Chars

  /** `this.chars[i]`: the char at i, or undefined. */
  function CharAt(cs: seq<CharId>, i: int): (r: Option<CharId>)
    ensures r.Some? <==> 0 <= i < |cs|
    ensures r.Some? ==> r.value == cs[i]
  {
    if 0 <= i < |cs| then Some(cs[i]) else None
  }

  /** The `parent` of a char that exists, or undefined. */
  function ParentOf(h: Heap, c: Option<CharId>): Option<WordId>
  {
    if c.Some? && c.value in h.charParent then h.charParent[c.value] else None
  }

  // ---------------------------------------------------------------------------------
  // insertCharsAt (document.js:60-100)

  /** `str.split('')` mapped to `new Char(part)` (document.js:71-73): the next ids, without a parent. */
  function WithChars(h: Heap, us: seq<string>): Heap
  {
    h.(charValue := NewValues(h.charValue, h.next, us),
       charParent := NewParents(h.charParent, h.next, |us|, None),
       next := h.next + |us|)
  }

  lemma {:induction false} WithCharsNone(h: Heap)
    ensures WithChars(h, []) == h
  {
  }

  /** One more `new Char(part)` after the ones made so far. */
  lemma {:induction false} WithCharsStep(h: Heap, us: seq<string>, u: string, s: Heap)
    requires s == WithChars(h, us)
    ensures AddChar(s, Some(u), None) == WithChars(h, us + [u]) && s.next == h.next + |us|
  {
    NewValuesSnoc(h.charValue, h.next, us, u, s.next);
    assert |us + [u]| == |us| + 1;
  }

  /** The four places `insertCharsAt` can put the new chars (document.js:82-95). */
  datatype Target =
    | BeforeNext(word: WordId, ref: Option<CharId>)  // nextWord.insertBefore(nextChar, newChars)
    | FrontOfNext(word: WordId)                      // nextWord.insertBefore(null, newChars)
    | NewWordAfter(block: BlockId, prev: WordId)     // prevWord.parent.insertAfter(prevWord, new Word(newChars))
    | AfterPrev(word: WordId, prevChar: CharId)      // prevWord.insertAfter(prevChar, newChars)

  /**
   * The branch document.js:82-95 takes for offset index, or None where the code would call
   * a method of undefined or null (no word to insert into).
   */
  function TargetOf(h: Heap, index: int): Option<Target>
  {
    var nextChar, prevChar := CharAt(h.chars, index), CharAt(h.chars, index - 1);
    var nextWord, prevWord := ParentOf(h, nextChar), ParentOf(h, prevChar);
    if nextWord == prevWord || prevWord.None? then
      if nextWord.Some? then Some(BeforeNext(nextWord.value, nextChar)) else None
    else if prevChar.value in h.charValue && IsSeparator(h.charValue[prevChar.value].ch) then
      if nextWord.Some? then Some(FrontOfNext(nextWord.value))
      else if prevWord.value in h.wordParent && h.wordParent[prevWord.value].Some? then
        Some(NewWordAfter(h.wordParent[prevWord.value].value, prevWord.value))
      else None
    else Some(AfterPrev(prevWord.value, prevChar.value))
  }

  /** For a new word, the store once `new Word(newChars)` has made it (document.js:89). */
  function Staged(h1: Heap, ids: seq<CharId>, t: Target): Heap
  {
    if t.NewWordAfter? then AddWord(h1, Adopt(ids), None) else h1
  }

  /**
   * The insertion and split that target t calls for, on the prepared store h1, for the new
   * chars ids and, for a new word, its id v.
   */
  ghost predicate CanPlaceIn(h1: Heap, ids: seq<CharId>, v: WordId, t: Target)
  {
    match t
    case BeforeNext(w, ref) => w in h1.wordChars && SplitOK(CharsAddedBefore(h1, w, ref, ids), w)
    case FrontOfNext(w) => w in h1.wordChars && SplitOK(CharsAddedBefore(h1, w, None, ids), w)
    case NewWordAfter(b, p) => b in h1.blockWords && SplitOK(SplicedAfter(h1, b, Some(p), v), v)
    case AfterPrev(w, ref) => w in h1.wordChars && SplitOK(CharsAddedAfter(h1, w, Some(ref), ids), w)
  }

  ghost predicate CanPlace(h: Heap, str: string, t: Target)
  {
    var h1 := WithChars(h, UnitsOf(str));
    CanPlaceIn(Staged(h1, Ids(h.next, |UnitsOf(str)|), t), Ids(h.next, |UnitsOf(str)|), h1.next, t)
  }

  /**
   * What `insertCharsAt(index, str)` needs: a non-empty string goes to a word that exists,
   * and the split that follows is one the model covers.
   */
  ghost predicate CanInsertCharsAt(h: Heap, index: int, str: string)
  {
    str != "" ==> TargetOf(h, index).Some? && CanPlace(h, str, TargetOf(h, index).value)
  }

  /**
   * What each branch of document.js:82-95 means: the new chars go in front of the char at
   * index, in its word; or at the front of that word when the char before index ends a
   * different word on a separator; or after the char before index, in its word; or into a
   * new word after the word of that char, when no word follows.  There is no target exactly
   * where the code calls a method of undefined: neither neighbour has a word, or the char
   * before is a separator, nothing follows and its word has no block.
   */
  lemma {:induction false} TargetOfCases(h: Heap, index: int)
    ensures var next, prev := CharAt(h.chars, index), CharAt(h.chars, index - 1);
      var nextWord, prevWord := ParentOf(h, next), ParentOf(h, prev);
      && (forall w: WordId, ref: Option<CharId> :: TargetOf(h, index) == Some(BeforeNext(w, ref)) ==>
            ref == next && nextWord == Some(w) && (prevWord.None? || prevWord == nextWord))
      && (forall w: WordId :: TargetOf(h, index) == Some(FrontOfNext(w)) ==>
            nextWord == Some(w) && prevWord.Some? && prevWord != nextWord
            && prev.value in h.charValue && IsSeparator(h.charValue[prev.value].ch))
      && (forall w: WordId, c: CharId :: TargetOf(h, index) == Some(AfterPrev(w, c)) ==>
            prev == Some(c) && prevWord == Some(w) && prevWord != nextWord
            && !(c in h.charValue && IsSeparator(h.charValue[c].ch)))
      && (forall b: BlockId, p: WordId :: TargetOf(h, index) == Some(NewWordAfter(b, p)) ==>
            nextWord.None? && prevWord == Some(p) && p in h.wordParent && h.wordParent[p] == Some(b)
            && prev.value in h.charValue && IsSeparator(h.charValue[prev.value].ch))
      && (TargetOf(h, index).None? <==>
            nextWord.None? && (prevWord.None?
              || (prev.value in h.charValue && IsSeparator(h.charValue[prev.value].ch)
                  && !(prevWord.value in h.wordParent && h.wordParent[prevWord.value].Some?))))
  {
  }

  lemma {:induction false} TargetInRange(h: Heap, index: int)
    requires TargetOf(h, index).Some?
    ensures 0 <= index <= |h.chars|
  {
  }

  /** The tree part of `insertCharsAt`: where the chars go, and the split. */
  ghost function PlacedIn(h1: Heap, ids: seq<CharId>, v: WordId, t: Target): Heap
    requires CanPlaceIn(h1, ids, v, t)
  {
    match t
    case BeforeNext(w, ref) => InsertCharsBeforeEffect(h1, w, ref, Some(ids))
    case FrontOfNext(w) => InsertCharsBeforeEffect(h1, w, None, Some(ids))
    case NewWordAfter(b, p) => InsertWordAfterEffect(h1, b, Some(p), Some(v))
    case AfterPrev(w, ref) => InsertCharsAfterEffect(h1, w, Some(ref), Some(ids))
  }

  ghost function Placed(h: Heap, str: string, t: Target): Heap
    requires CanPlace(h, str, t)
  {
    var h1 := WithChars(h, UnitsOf(str));
    PlacedIn(Staged(h1, Ids(h.next, |UnitsOf(str)|), t), Ids(h.next, |UnitsOf(str)|), h1.next, t)
  }

  /** `document.insertCharsAt(index, str)` (document.js:60-100). */
  ghost function InsertCharsAtEffect(h: Heap, index: int, str: string): Heap
    requires CanInsertCharsAt(h, index, str)
  {
    if str == "" then h
    else
      var t := TargetOf(h, index).value;
      TargetInRange(h, index);
      var ids := Ids(h.next, |UnitsOf(str)|);
      Placed(h, str, t).(chars := h.chars[..index] + ids + h.chars[index..])
  }

  // ---------------------------------------------------------------------------------
  // removeCharsAt (document.js:107-117)

  /** How many chars `chars.splice(index, count)` takes from index on. */
  function Taken(len: nat, index: nat, count: int): (k: nat)
    requires index <= len
    ensures index + k <= len
    ensures 0 <= count <= len - index ==> k == count
    ensures count < 0 ==> k == 0
    ensures count > len - index ==> k == len - index
  {
    if count < 0 then 0 else if count > len - index then len - index else count
  }

  /** Every removed char has a word to be removed from (`char.parent.removeChar(char)`). */
  ghost predicate Parented(h: Heap, cs: seq<CharId>)
  {
    forall c: CharId :: c in cs ==> c in h.charParent && h.charParent[c].Some? && h.charParent[c].value in h.wordChars
  }

  /** `removedChars.forEach(char => char.parent.removeChar(char))` (document.js:114-116). */
  function RemoveEach(h: Heap, cs: seq<CharId>): (r: Heap)
    requires Parented(h, cs)
    ensures r.charParent == h.charParent && r.wordChars.Keys == h.wordChars.Keys
    ensures r.(wordChars := h.wordChars) == h
    decreases |cs|
  {
    if cs == [] then h
    else
      var m := RemoveEach(h, cs[..|cs| - 1]);
      var c := cs[|cs| - 1];
      CharRemoved(m, m.charParent[c].value, c)
  }

  /** What `removeCharsAt(index, count)` needs: every char it takes out has a parent word. */
  ghost predicate CanRemoveCharsAt(h: Heap, index: int, count: int)
  {
    0 <= index < |h.chars| ==> Parented(h, h.chars[index..index + Taken(|h.chars|, index, count)])
  }

  /** `document.removeCharsAt(index, count)` (document.js:107-117). */
  function RemoveCharsAtEffect(h: Heap, index: int, count: int): Heap
    requires CanRemoveCharsAt(h, index, count)
  {
    if CharAt(h.chars, index).None? then h
    else
      var k := Taken(|h.chars|, index, count);
      var removed := h.chars[index..index + k];
      RemoveEach(h.(chars := h.chars[..index] + h.chars[index + k..]), removed)
  }

  // ---------------------------------------------------------------------------------
  // execAction (document.js:31-49)

  /** In a list of parents, the value of `nextWord` after scanning it: the last entry, or undefined. */
  function LastParent(ps: seq<Option<WordId>>): Option<WordId>
  {
    if ps == [] then None else ps[|ps| - 1]
  }

  /** The words `execAction` toggles while scanning parents ps: each entry that differs from the one before. */
  function Heads(ps: seq<Option<WordId>>): seq<WordId>
    decreases |ps|
  {
    if ps == [] then []
    else
      var init := ps[..|ps| - 1];
      var p := ps[|ps| - 1];
      Heads(init) + (if p != LastParent(init) && p.Some? then [p.value] else [])
  }

  /** `toggleProp(action)` on each word of ws in turn. */
  ghost predicate Toggleable(h: Heap, ws: seq<WordId>)
  {
    forall v: WordId :: v in ws ==> v in h.wordChars && forall c: CharId :: c in h.wordChars[v] ==> c in h.charValue
  }

  function ToggleAll(h: Heap, action: string, ws: seq<WordId>): (r: Heap)
    requires Toggleable(h, ws)
    ensures r.(charValue := h.charValue) == h && r.charValue.Keys == h.charValue.Keys
    decreases |ws|
  {
    if ws == [] then h
    else ToggleEffect(ToggleAll(h, action, ws[..|ws| - 1]), ws[|ws| - 1], action)
  }

  /** The parents of the chars at offsets start..stop-1 that the loop of execAction visits. */
  function ParentsIn(h: Heap, start: nat, stop: nat): seq<Option<WordId>>
    requires start <= stop <= |h.chars|
  {
    seq(stop - start, j requires 0 <= j < stop - start => ParentOf(h, Some(h.chars[start + j])))
  }

  /** Where the loop of execAction stops: the end of the selection or of `chars`. */
  function Stop(len: nat, start: nat, end: int): (k: nat)
    requires start <= len
    ensures start <= k <= len
  {
    if end < start then start else if end > len then len else end
  }

  ghost predicate CanExecAction(h: Heap, start: int, end: int)
  {
    0 <= start < |h.chars| ==> Toggleable(h, Heads(ParentsIn(h, start, Stop(|h.chars|, start, end))))
  }

  /** `document.execAction(action, {start, end})` (document.js:31-49). */
  function ExecActionEffect(h: Heap, action: string, start: int, end: int): Heap
    requires CanExecAction(h, start, end)
  {
    if CharAt(h.chars, start).None? then h
    else ToggleAll(h, action, Heads(ParentsIn(h, start, Stop(|h.chars|, start, end))))
  }

  // ---------------------------------------------------------------------------------
  // new Document(text) (document.js:11-22)

  /** `new Document(text)`: the empty document, then `insertCharsAt(0, text)` for a non-empty text. */
  ghost function NewDocument(text: string): Heap
  {
    NewDocumentDefined(text);
    if text == "" then EmptyDocument() else InsertCharsAtEffect(EmptyDocument(), 0, text)
  }

  /** The new chars are objects of a store that stays well formed. */
  lemma {:induction false} WithCharsKeeps(h: Heap, us: seq<string>)
    requires WellFormed(h)
    ensures WellFormed(WithChars(h, us))
    ensures forall c: CharId :: c in Ids(h.next, |us|) ==> c in WithChars(h, us).charValue
  {
    NewValuesAt(h.charValue, h.next, us);
    NewParentsAt(h.charParent, h.next, |us|, None);
    IdsDistinct(h.next, |us|);
  }

  /**
   * `new Document(text)` is defined for every text: the text goes in front of the terminator
   * of the one word, whose block is attached and has no word after it.
   */
  lemma {:induction false} NewDocumentDefined(text: string)
    ensures CanInsertCharsAt(EmptyDocument(), 0, text)
  {
    var e := EmptyDocument();
    if text != "" {
      assert TargetOf(e, 0) == Some(BeforeNext(2, Some(1)));
      var us := UnitsOf(text);
      var ids := Ids(e.next, |us|);
      EmptyDocumentWellFormed();
      WithCharsKeeps(e, us);
      var h1 := WithChars(e, us);
      CharsAddedBeforeKeeps(h1, 2, Some(1), ids);
      var hb := CharsAddedBefore(h1, 2, Some(1), ids);
      assert hb.blockWords[0] == [2];
      assert CutAfter([2], 2).1 == [];
      assert SplitOK(hb, 2);
    }
  }

  // ---------------------------------------------------------------------------------
  // One turn of each loop of document.js is one more step of its fold.

  /** `insertCharsAt` as its two steps: make the chars, then place them (document.js:71-95). */
  lemma {:induction false} InsertCharsAtSteps(h: Heap, index: int, str: string, t: Target, h1: Heap, ids: seq<CharId>)
    requires CanInsertCharsAt(h, index, str) && str != "" && TargetOf(h, index) == Some(t)
    requires h1 == WithChars(h, UnitsOf(str)) && ids == Ids(h.next, |UnitsOf(str)|)
    ensures 0 <= index <= |h.chars| && CanPlaceIn(Staged(h1, ids, t), ids, h1.next, t)
    ensures InsertCharsAtEffect(h, index, str)
         == PlacedIn(Staged(h1, ids, t), ids, h1.next, t).(chars := h.chars[..index] + ids + h.chars[index..])
  {
    TargetInRange(h, index);
  }

  /** `removeCharsAt` as its two steps: splice `chars`, then detach each removed char (document.js:112-116). */
  lemma {:induction false} RemoveCharsAtSteps(h: Heap, index: int, count: int, h1: Heap, removed: seq<CharId>)
    requires CanRemoveCharsAt(h, index, count) && 0 <= index < |h.chars|
    requires var k := Taken(|h.chars|, index, count);
      h1 == h.(chars := h.chars[..index] + h.chars[index + k..]) && removed == h.chars[index..index + k]
    ensures Parented(h1, removed) && RemoveCharsAtEffect(h, index, count) == RemoveEach(h1, removed)
  {
  }

  /** A store that agrees with h except for the values the toggles gave is their result. */
  lemma {:induction false} ToggledState(h: Heap, action: string, ws: seq<WordId>, hc: Heap)
    requires Toggleable(h, ws) && hc == h.(charValue := ToggleAll(h, action, ws).charValue)
    ensures hc == ToggleAll(h, action, ws)
  {
  }

  /** One more word toggled, from the store the toggles so far left. */
  lemma {:induction false} ToggleStep(h: Heap, action: string, ws: seq<WordId>, v: WordId, hc: Heap)
    requires Toggleable(h, ws + [v]) && Toggleable(h, ws)
    requires hc == h.(charValue := ToggleAll(h, action, ws).charValue)
    ensures v in hc.wordChars && forall c: CharId :: c in hc.wordChars[v] ==> c in hc.charValue
    ensures ToggleAll(h, action, ws + [v]) == ToggleEffect(hc, v, action)
  {
    ToggleAllStep(h, action, ws, v);
    ToggledState(h, action, ws, hc);
    assert v in ws + [v];
  }

  /** One turn of the loop of execAction (document.js:39-47) over the parents it scans. */
  lemma {:induction false} ExecStep(h: Heap, start: nat, i: nat, stop: nat, nextWord: Option<WordId>)
    requires start <= i < stop <= |h.chars|
    requires Toggleable(h, Heads(ParentsIn(h, start, stop)))
    requires nextWord == LastParent(ParentsIn(h, start, i))
    ensures var p := ParentOf(h, Some(h.chars[i]));
      && LastParent(ParentsIn(h, start, i + 1)) == p
      && Heads(ParentsIn(h, start, i + 1)) == Heads(ParentsIn(h, start, i)) + (if p != nextWord && p.Some? then [p.value] else [])
      && Toggleable(h, Heads(ParentsIn(h, start, i + 1)))
  {
    ParentsInStep(h, start, i);
    HeadsStep(ParentsIn(h, start, i), ParentOf(h, Some(h.chars[i])));
    ParentsInPrefix(h, start, i + 1, stop);
    HeadsIn(ParentsIn(h, start, i + 1));
    HeadsIn(ParentsIn(h, start, stop));
  }

  lemma {:induction false} ParentedPrefix(h: Heap, cs: seq<CharId>, i: nat)
    requires Parented(h, cs) && i <= |cs|
    ensures Parented(h, cs[..i])
  {
    forall c: CharId | c in cs[..i] ensures c in cs {
      var j :| 0 <= j < i && cs[..i][j] == c;
      assert cs[j] == c;
    }
  }

  /** One turn of `removedChars.forEach` (document.js:114-116). */
  lemma {:induction false} RemoveEachStep(h: Heap, cs: seq<CharId>, c: CharId)
    requires Parented(h, cs + [c])
    ensures Parented(h, cs) && c in h.charParent && h.charParent[c].Some?
    ensures h.charParent[c].value in RemoveEach(h, cs).wordChars
    ensures RemoveEach(h, cs + [c]) == CharRemoved(RemoveEach(h, cs), h.charParent[c].value, c)
  {
    var t := cs + [c];
    assert t[..|t| - 1] == cs;
    assert c in t;
  }

  /** Turn `i` of `removedChars.forEach`, from the state the earlier turns left. */
  lemma {:induction false} RemoveEachTurn(h: Heap, cs: seq<CharId>, i: nat, s: Heap)
    requires Parented(h, cs) && i < |cs|
    requires Parented(h, cs[..i]) && s == RemoveEach(h, cs[..i])
    ensures cs[i] in s.charParent && s.charParent[cs[i]].Some? && s.charParent[cs[i]].value in s.wordChars
    ensures Parented(h, cs[..i + 1])
    ensures RemoveEach(h, cs[..i + 1]) == CharRemoved(s, s.charParent[cs[i]].value, cs[i])
  {
    TakeOneMore(cs, i);
    ParentedPrefix(h, cs, i + 1);
    RemoveEachStep(h, cs[..i], cs[i]);
  }

  /** One more word toggled. */
  lemma {:induction false} ToggleAllStep(h: Heap, action: string, ws: seq<WordId>, v: WordId)
    requires Toggleable(h, ws + [v])
    ensures Toggleable(h, ws)
    ensures ToggleAll(h, action, ws + [v]) == ToggleEffect(ToggleAll(h, action, ws), v, action)
  {
    var t := ws + [v];
    assert t[..|t| - 1] == ws;
  }

  /** One more parent scanned. */
  lemma {:induction false} HeadsStep(ps: seq<Option<WordId>>, p: Option<WordId>)
    ensures LastParent(ps + [p]) == p
    ensures Heads(ps + [p]) == Heads(ps) + (if p != LastParent(ps) && p.Some? then [p.value] else [])
  {
    var t := ps + [p];
    assert t[..|t| - 1] == ps;
  }

  lemma {:induction false} ParentsInStep(h: Heap, start: nat, i: nat)
    requires start <= i < |h.chars|
    ensures ParentsIn(h, start, i + 1) == ParentsIn(h, start, i) + [ParentOf(h, Some(h.chars[i]))]
  {
  }

  /** The words toggled are exactly the parents met. */
  lemma {:induction false} HeadsIn(ps: seq<Option<WordId>>)
    ensures forall v: WordId :: v in Heads(ps) <==> Some(v) in ps
    decreases |ps|
  {
    if ps != [] {
      var init, p := ps[..|ps| - 1], ps[|ps| - 1];
      HeadsIn(init);
      assert ps == init + [p];
      forall v ensures v in Heads(ps) <==> Some(v) in ps {
        if Some(v) in ps && Some(v) !in init {
          assert p == Some(v);
          assert init != [] ==> init[|init| - 1] in init;
        }
      }
    }
  }

  /** The scanned parents of a prefix of the range are among those of the whole range. */
  lemma {:induction false} ParentsInPrefix(h: Heap, start: nat, i: nat, stop: nat)
    requires start <= i <= stop <= |h.chars|
    ensures forall p :: p in ParentsIn(h, start, i) ==> p in ParentsIn(h, start, stop)
  {
    assert ParentsIn(h, start, i) == ParentsIn(h, start, stop)[..i - start];
  }

  // ---------------------------------------------------------------------------------
  // What each operation does to the flat `chars` index

  /**
   * `insertCharsAt(index, str)` does nothing for an empty string; otherwise `chars` grows by
   * one new char per unit of str, those new chars sit at index..index+|str|-1 in order, and
   * the chars that were there shift right (document.js:61-63 and 99).
   */
  lemma {:induction false} InsertCharsAtChars(h: Heap, index: int, str: string)
    requires CanInsertCharsAt(h, index, str)
    ensures str == "" ==> InsertCharsAtEffect(h, index, str) == h
    ensures InsertCharsAtEffect(h, index, str).tail == h.tail
    ensures str != "" ==>
      var cs := InsertCharsAtEffect(h, index, str).chars;
      && 0 <= index <= |h.chars|
      && |cs| == |h.chars| + |str|
      && cs[..index] == h.chars[..index]
      && cs[index..index + |str|] == Ids(h.next, |str|)
      && cs[index + |str|..] == h.chars[index..]
  {
    if str != "" {
      TargetInRange(h, index);
      PlacedValues(h, str, TargetOf(h, index).value);
      var ids := Ids(h.next, |UnitsOf(str)|);
      var cs := h.chars[..index] + ids + h.chars[index..];
      assert InsertCharsAtEffect(h, index, str).chars == cs;
      assert cs[..index] == h.chars[..index];
      assert cs[index..index + |str|] == ids;
      assert cs[index + |str|..] == h.chars[index..];
    }
  }

  /** Placing the chars changes no char's value, nor the tail: the values are those of the chars just made. */
  lemma {:induction false} PlacedValues(h: Heap, str: string, t: Target)
    requires CanPlace(h, str, t)
    ensures Placed(h, str, t).charValue == NewValues(h.charValue, h.next, UnitsOf(str))
    ensures Placed(h, str, t).tail == h.tail
  {
    var h1 := WithChars(h, UnitsOf(str));
    var ids := Ids(h.next, |UnitsOf(str)|);
    var s := Staged(h1, ids, t);
    assert s.charValue == h1.charValue;
    match t
    case BeforeNext(w, ref) => SplitValues(CharsAddedBefore(s, w, ref, ids), w);
    case FrontOfNext(w) => SplitValues(CharsAddedBefore(s, w, None, ids), w);
    case NewWordAfter(b, p) => SplitValues(SplicedAfter(s, b, Some(p), h1.next), h1.next);
    case AfterPrev(w, ref) => SplitValues(CharsAddedAfter(s, w, Some(ref), ids), w);
  }

  /**
   * In a well-formed store, the text `chars` spells out after `insertCharsAt(index, str)` is
   * the text before index, then str, then the text from index on: the new chars hold the
   * units of str and no other char changes (document.js:71-73 and 99).
   */
  lemma {:induction false} InsertCharsAtText(h: Heap, index: int, str: string)
    requires CanInsertCharsAt(h, index, str) && WellFormed(h)
    ensures str != "" ==> 0 <= index <= |h.chars|
    ensures var r := InsertCharsAtEffect(h, index, str);
      && (forall c: CharId :: c in r.chars ==> c in r.charValue)
      && (0 <= index <= |h.chars| ==>
            TextOf(r.charValue, r.chars) == TextOf(h.charValue, h.chars[..index]) + str + TextOf(h.charValue, h.chars[index..]))
  {
    var r := InsertCharsAtEffect(h, index, str);
    if str == "" {
      if 0 <= index <= |h.chars| {
        assert h.chars == h.chars[..index] + h.chars[index..];
        TextAppend(h.charValue, h.chars[..index], h.chars[index..]);
      }
    } else {
      var t := TargetOf(h, index).value;
      TargetInRange(h, index);
      var ids := Ids(h.next, |str|);
      var pre, post := h.chars[..index], h.chars[index..];
      PlacedValues(h, str, t);
      assert r.chars == pre + ids + post && r.charValue == NewValues(h.charValue, h.next, UnitsOf(str));
      assert forall c: CharId :: c in h.chars ==> c in h.charValue && c < h.next;
      assert forall c: CharId :: c in pre ==> c in h.chars;
      assert forall c: CharId :: c in post ==> c in h.chars;
      SplicedText(h.charValue, h.next, str, pre, post);
    }
  }

  /** The text of old chars with the chars made for str, from id m on, spliced in between. */
  lemma {:induction false} SplicedText(cv: map<CharId, Chars.Char>, m: nat, str: string, pre: seq<CharId>, post: seq<CharId>)
    requires str != ""
    requires (forall c: CharId :: c in pre ==> c in cv && c < m) && (forall c: CharId :: c in post ==> c in cv && c < m)
    ensures var cv', cs := NewValues(cv, m, UnitsOf(str)), pre + Ids(m, |str|) + post;
      && (forall c: CharId :: c in cs ==> c in cv')
      && TextOf(cv', cs) == TextOf(cv, pre) + str + TextOf(cv, post)
  {
    var cv', ids := NewValues(cv, m, UnitsOf(str)), Ids(m, |str|);
    NewValuesAt(cv, m, UnitsOf(str));
    NewValuesText(cv, m, str, |str|);
    TextFrame(cv, cv', pre);
    TextFrame(cv, cv', post);
    TextAppend(cv', pre + ids, post);
    TextAppend(cv', pre, ids);
    assert str[..|str|] == str;
  }

  /**
   * `new Document(text)` holds one new char per unit of text, in order, followed by the empty
   * terminator, which stays the tail, and its chars read back as text (document.js:11-22).
   */
  lemma {:induction false} NewDocumentChars(text: string)
    ensures var d := NewDocument(text);
      && |d.chars| == |text| + 1
      && d.chars[..|text|] == Ids(3, |text|)
      && d.chars[|text|] == d.tail == 1
      && (forall c: CharId :: c in d.chars ==> c in d.charValue)
      && TextOf(d.charValue, d.chars) == text
  {
    var e := EmptyDocument();
    EmptyDocumentFacts();
    NewDocumentDefined(text);
    assert TextOf(e.charValue, [e.tail]) == "" by {
      assert [e.tail][..0] == [];
    }
    if text != "" {
      IntoTerminated(e, text, NewDocument(text));
    }
  }

  /** Inserting text at 0 into a store whose chars are only its empty tail. */
  lemma {:induction false} IntoTerminated(h: Heap, text: string, d: Heap)
    requires WellFormed(h) && h.chars == [h.tail] && h.tail in h.charValue && TextOf(h.charValue, [h.tail]) == ""
    requires text != "" && CanInsertCharsAt(h, 0, text) && d == InsertCharsAtEffect(h, 0, text)
    ensures && |d.chars| == |text| + 1
      && d.chars[..|text|] == Ids(h.next, |text|)
      && d.chars[|text|] == d.tail == h.tail
      && (forall c: CharId :: c in d.chars ==> c in d.charValue)
      && TextOf(d.charValue, d.chars) == text
  {
    InsertCharsAtChars(h, 0, text);
    InsertCharsAtText(h, 0, text);
    assert h.chars[..0] == [] && h.chars[0..] == [h.tail];
    TerminatedGlue(d.chars, Ids(h.next, |text|), h.tail, |text|);
  }

  lemma {:induction false} TerminatedGlue(cs: seq<CharId>, ids: seq<CharId>, tail: CharId, n: nat)
    requires |cs| == 1 + n && cs[0..n] == ids && cs[n..] == [tail]
    ensures cs[..n] == ids && cs[n] == tail
  {
    assert cs[n] == cs[n..][0];
  }

  /**
   * `removeCharsAt(index, count)` does nothing when there is no char at index; otherwise
   * `chars` loses exactly the slice from index of the length `splice` takes, and only the
   * char lists of words change besides (document.js:107-117).
   */
  lemma {:induction false} RemoveCharsAtChars(h: Heap, index: int, count: int)
    requires CanRemoveCharsAt(h, index, count)
    ensures !(0 <= index < |h.chars|) ==> RemoveCharsAtEffect(h, index, count) == h
    ensures 0 <= index < |h.chars| ==>
      var r, k := RemoveCharsAtEffect(h, index, count), Taken(|h.chars|, index, count);
      && r.chars == h.chars[..index] + h.chars[index + k..]
      && |r.chars| == |h.chars| - k
      && r.(chars := h.chars, wordChars := h.wordChars) == h
  {
  }

  /**
   * `execAction(action, selection)` does nothing when there is no char at start; otherwise it
   * toggles, in turn, the parent word of each run of chars in the selection that share one,
   * and the words it toggles are exactly the parents met (document.js:31-49).
   */
  lemma {:induction false} ExecActionToggles(h: Heap, action: string, start: int, end: int)
    requires CanExecAction(h, start, end)
    ensures !(0 <= start < |h.chars|) ==> ExecActionEffect(h, action, start, end) == h
    ensures 0 <= start < |h.chars| ==>
      var stop := Stop(|h.chars|, start, end);
      var ws := Heads(ParentsIn(h, start, stop));
      && ExecActionEffect(h, action, start, end) == ToggleAll(h, action, ws)
      && (forall v: WordId :: v in ws <==> exists i :: start <= i < stop && ParentOf(h, Some(h.chars[i])) == Some(v))
  {
    if 0 <= start < |h.chars| {
      var stop := Stop(|h.chars|, start, end);
      HeadsIn(ParentsIn(h, start, stop));
      forall v: WordId ensures Some(v) in ParentsIn(h, start, stop) <==> exists i :: start <= i < stop && ParentOf(h, Some(h.chars[i])) == Some(v) {
        ParentsInHas(h, start, stop, v);
      }
    }
  }

  /** A word is among the scanned parents when some char of the range has it as parent. */
  lemma {:induction false} ParentsInHas(h: Heap, start: nat, stop: nat, v: WordId)
    requires start <= stop <= |h.chars|
    ensures Some(v) in ParentsIn(h, start, stop) <==> exists i :: start <= i < stop && ParentOf(h, Some(h.chars[i])) == Some(v)
  {
    var ps := ParentsIn(h, start, stop);
    if Some(v) in ps {
      var j :| 0 <= j < |ps| && ps[j] == Some(v);
      assert ParentOf(h, Some(h.chars[start + j])) == Some(v);
    }
    if exists i :: start <= i < stop && ParentOf(h, Some(h.chars[i])) == Some(v) {
      var i :| start <= i < stop && ParentOf(h, Some(h.chars[i])) == Some(v);
      assert ps[i - start] == Some(v);
    }
  }
}
