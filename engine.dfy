/**
 * The editor's object tree as one mutable store.  Every method below does what the
 * JavaScript method of the same name does, step by step, to the fields of the objects
 * involved, and promises that the new store is the effect function of Tree, Words, Blocks
 * or Documents applied to the old one.  What those effects mean is proved about them.
 */
module Engine {
  import opened Wrappers
  import opened Util
  import opened Seqs
  import opened WordScan
  import opened Chars
  import opened Tree
  import opened Words
  import opened Blocks
  import opened Documents

  class Document {
    var blocks: seq<BlockId>
    var chars: seq<CharId>
    var tail: CharId
    var blockWords: map<BlockId, seq<WordId>>
    var blockAttached: map<BlockId, bool>
    var wordChars: map<WordId, seq<CharId>>
    var wordParent: map<WordId, Option<BlockId>>
    var charValue: map<CharId, Char>
    var charParent: map<CharId, Option<WordId>>
    var next: nat

    /** The whole store as a value. */
    function State(): Heap
      reads this
    {
      Heap(blocks, chars, tail, blockWords, blockAttached, wordChars, wordParent, charValue, charParent, next)
    }

    // -------------------------------------------------------------------------------
    // Constructors of the three node kinds

    /** `new Char(char, parent)` (char.js:13-18). */
    method NewChar(c: Option<string>, parent: Option<WordId>) returns (id: CharId)
      modifies this`charValue, this`charParent, this`next
      ensures id == old(next)
      ensures State() == AddChar(old(State()), c, parent)
    {
      id := next;
      charParent := charParent[id := parent];
      charValue := charValue[id := Chars.New(c)];
      next := next + 1;
    }

    /** `new Word(text, parent)` (word.js:15-32). */
    method NewWord(text: WordText, parent: Option<BlockId>) returns (v: WordId)
      modifies this`wordParent, this`wordChars, this`charValue, this`charParent, this`next
      ensures v == old(next)
      ensures State() == AddWord(old(State()), text, parent)
    {
      match text
      case NoText =>
        v := next;
        next := next + 1;
        wordParent := wordParent[v := parent];
        wordChars := wordChars[v := []];
      case Units(s) =>
        v := NewUnitsWord(UnitsOf(s), parent);
      case Adopt(cs) =>
        v := NewAdoptingWord(cs, parent);
    }

    /** word.js:22-25: a word given a string makes one Char per unit of it. */
    method NewUnitsWord(us: seq<string>, parent: Option<BlockId>) returns (v: WordId)
      modifies this`wordParent, this`wordChars, this`charValue, this`charParent, this`next
      ensures v == old(next)
      ensures State() == WithUnits(old(State()), us, parent)
    {
      ghost var h := State();
      v := next;
      next := next + 1;
      wordParent := wordParent[v := parent];
      wordChars := wordChars[v := []];
      ghost var h1 := State();
      PushUnits(v, us);
      UnitsWordSteps(h, us, parent, h1, State());
    }

    /** word.js:26-30: a word given an array of Chars takes it as its list and adopts them. */
    method NewAdoptingWord(cs: seq<CharId>, parent: Option<BlockId>) returns (v: WordId)
      modifies this`wordParent, this`wordChars, this`charParent, this`next
      ensures v == old(next)
      ensures State() == AdoptingWord(old(State()), cs, parent)
    {
      v := next;
      next := next + 1;
      wordParent := wordParent[v := parent];
      wordChars := wordChars[v := cs];
      AdoptChars(v, cs);
    }

    /** `chars.forEach(char => this.chars.push(new Char(char, this)))` (word.js:23-25). */
    method PushUnits(v: WordId, us: seq<string>)
      requires v in wordChars
      modifies this`wordChars, this`charValue, this`charParent, this`next
      ensures State() == PushedUnits(old(State()), v, us)
    {
      ghost var h := State();
      PushedNone(h, v);
      var i := 0;
      while i < |us|
        invariant 0 <= i <= |us|
        invariant State() == PushedUnits(h, v, us[..i])
      {
        TakeOneMore(us, i);
        PushedStep(h, v, us[..i], us[i], State());
        var c := NewChar(Some(us[i]), Some(v));
        wordChars := wordChars[v := wordChars[v] + [c]];
        i := i + 1;
      }
      assert us[..|us|] == us;
    }

    /** `chars.forEach(char => char.parent = this)` (word.js:28-30, 174-176, 202-204). */
    method AdoptChars(w: WordId, xs: seq<CharId>)
      modifies this`charParent
      ensures charParent == SetAll(old(charParent), xs, Some(w))
    {
      ghost var cp := charParent;
      var i := 0;
      while i < |xs|
        invariant 0 <= i <= |xs|
        invariant charParent == SetAll(cp, xs[..i], Some(w))
      {
        TakeOneMore(xs, i);
        SetAllSnoc(cp, xs[..i], xs[i], Some(w));
        charParent := charParent[xs[i] := Some(w)];
        i := i + 1;
      }
      assert xs[..|xs|] == xs;
    }

    /** `new Block(words, parent)` (block.js:11-22); `attached` says whether parent is this document. */
    method NewBlock(words: Option<seq<WordId>>, attached: bool) returns (b: BlockId)
      modifies this`blockAttached, this`blockWords, this`wordParent, this`wordChars, this`charValue, this`charParent, this`next
      ensures b == old(next)
      ensures State() == AddBlock(old(State()), words, attached)
    {
      if words.None? || words.value == [] {
        b := NewEmptyBlock(attached);
      } else {
        b := NewBlockOf(words.value, attached);
      }
    }

    /** block.js:14-15: a block given no words makes `new Word([new Char('')], this)`. */
    method NewEmptyBlock(attached: bool) returns (b: BlockId)
      modifies this`blockAttached, this`blockWords, this`wordParent, this`wordChars, this`charValue, this`charParent, this`next
      ensures b == old(next)
      ensures State() == AddEmptyBlock(old(State()), attached)
    {
      ghost var h := State();
      b := next;
      next := next + 1;
      blockAttached := blockAttached[b := attached];
      ghost var h1 := State();
      var c := NewChar(Some(""), None);
      ghost var h2 := State();
      var v := NewWord(Adopt([c]), Some(b));
      ghost var h3 := State();
      blockWords := blockWords[b := [v]];
      AddBlockEmptySteps(h, attached, h1, c, h2, v, h3, State());
    }

    /** block.js:17-20: a block given words adopts them. */
    method NewBlockOf(ws: seq<WordId>, attached: bool) returns (b: BlockId)
      requires ws != []
      modifies this`blockAttached, this`blockWords, this`wordParent, this`next
      ensures b == old(next)
      ensures State() == AddWordsBlock(old(State()), ws, attached)
    {
      b := next;
      next := next + 1;
      blockAttached := blockAttached[b := attached];
      blockWords := blockWords[b := ws];
      AdoptWords(b, ws);
    }

    /** `this.words.forEach(word => word.parent = this)` (block.js:18-20). */
    method AdoptWords(b: BlockId, ws: seq<WordId>)
      modifies this`wordParent
      ensures wordParent == SetAll(old(wordParent), ws, Some(b))
    {
      ghost var wp := wordParent;
      var i := 0;
      while i < |ws|
        invariant 0 <= i <= |ws|
        invariant wordParent == SetAll(wp, ws[..i], Some(b))
      {
        TakeOneMore(ws, i);
        SetAllSnoc(wp, ws[..i], ws[i], Some(b));
        wordParent := wordParent[ws[i] := Some(b)];
        i := i + 1;
      }
      assert ws[..|ws|] == ws;
    }

    // -------------------------------------------------------------------------------
    // Word (word.js)

    /** `word.toggleProp(prop)` (word.js:42-66). */
    method ToggleProp(w: WordId, prop: string)
      requires w in wordChars && forall c: CharId :: c in wordChars[w] ==> c in charValue
      modifies this`charValue
      ensures State() == ToggleEffect(old(State()), w, prop)
    {
      var cs := wordChars[w];
      var setTrue := TurnOn(cs, prop);
      if !setTrue {
        TurnOff(cs, prop);
      }
    }

    /** The first loop of `toggleProp` (word.js:49-54); the result is `setTrue`. */
    method TurnOn(cs: seq<CharId>, prop: string) returns (setTrue: bool)
      requires forall c: CharId :: c in cs ==> c in charValue
      modifies this`charValue
      ensures charValue == SetOn(old(charValue), cs, prop)
      ensures setTrue == AnyOff(old(charValue), cs, prop)
    {
      ghost var cv := charValue;
      var m := charValue;
      setTrue := false;
      var i := 0;
      while i < |cs|
        invariant 0 <= i <= |cs|
        invariant m == SetOn(cv, cs[..i], prop)
        invariant setTrue == AnyOff(cv, cs[..i], prop)
      {
        TurnOnStep(cv, cs, i, m, setTrue, prop);
        var c := cs[i];
        if !IsOn(m[c].props, prop) {
          m := m[c := m[c].(props := Set(m[c].props, prop, true))];
          setTrue := true;
        }
        i := i + 1;
      }
      assert cs[..|cs|] == cs;
      charValue := m;
    }

    /** The second loop of `toggleProp` (word.js:62-64). */
    method TurnOff(cs: seq<CharId>, prop: string)
      requires forall c: CharId :: c in cs ==> c in charValue
      modifies this`charValue
      ensures charValue == SetOff(old(charValue), cs, prop)
    {
      ghost var cv := charValue;
      var i := 0;
      while i < |cs|
        invariant 0 <= i <= |cs|
        invariant charValue == SetOff(cv, cs[..i], prop)
      {
        TakeOneMore(cs, i);
        var c := cs[i];
        SetOffSnoc(cv, cs[..i], c, prop);
        charValue := charValue[c := charValue[c].(props := Set(charValue[c].props, prop, false))];
        i := i + 1;
      }
      assert cs[..|cs|] == cs;
    }

    /** The `new Word(currentChars)` calls of `split` (word.js:94, 96, 122, 124), one per run in turn. */
    method MakeWords(runs: seq<seq<CharId>>)
      modifies this`wordParent, this`wordChars, this`charValue, this`charParent, this`next
      ensures State() == WithWords(old(State()), runs)
    {
      ghost var h := State();
      var i := 0;
      while i < |runs|
        invariant 0 <= i <= |runs|
        invariant State() == WithWords(h, runs[..i])
      {
        TakeOneMore(runs, i);
        WithWordsStep(h, runs[..i], runs[i]);
        var v := NewWord(Adopt(runs[i]), None);
        i := i + 1;
      }
      assert runs[..|runs|] == runs;
    }

    /** `word.split()` (word.js:74-159). */
    method Split(w: WordId)
      requires SplitOK(State(), w)
      modifies this`blocks, this`blockWords, this`blockAttached, this`wordChars, this`wordParent,
               this`charValue, this`charParent, this`next
      ensures State() == SplitEffect(old(State()), w)
      decreases if PlanIn(State(), w).NoSplit? then 0 else 6
    {
      ghost var h := State();
      var p := Scan(wordChars[w], KindIn(charValue));
      if p.NoSplit? {
        return;
      }
      var b := wordParent[w].value;
      var n := next;
      var gs := IdGroups(n + |p.same|, p.groups);
      assert gs == SplitGroups(h, w);
      SplitWords(w, p);
      SplitHalves(h, w);
      if p.groups == [] {
        SplitTailNone(State(), b, w);
        return;
      }
      RegroupReady(h, w, p, State(), b, gs);
      SplitBlocks(b, w, gs);
    }

    /** word.js:117 and 134-140, with the words made during the scan. */
    method SplitWords(w: WordId, p: Plan<CharId>)
      requires CanSplit(State(), w) && p == PlanIn(State(), w) && p.Split?
      modifies this`blocks, this`blockWords, this`blockAttached, this`wordChars, this`wordParent,
               this`charValue, this`charParent, this`next
      ensures State() == SplitRuns(old(State()), w)
      decreases 5
    {
      ghost var h := State();
      var b := wordParent[w].value;
      var n := next;
      wordChars := wordChars[w := p.first];
      MakeWords(NewRuns(p));
      var ids := Ids(n, |p.same|);
      NewWordsNormal(h, w, State(), ids);
      ChainWords(b, w, ids);
    }

    /** word.js:143-158: cut the block after w, make the new blocks, move the cut-off words. */
    method SplitBlocks(b: BlockId, w: WordId, gs: seq<seq<WordId>>)
      requires CanRegroup(State(), b, w, gs)
      modifies this`blocks, this`blockWords, this`blockAttached, this`wordChars, this`wordParent,
               this`charValue, this`charParent, this`next
      ensures State() == Regroup(old(State()), b, w, gs)
      decreases 5
    {
      var sib := RemoveWordsAfter(b, w);
      var last := MakeBlocks(b, gs);
      AppendWords(last, sib);
    }

    /** The `forEach` at word.js:136-139: each same-block word goes in after the one before. */
    method ChainWords(b: BlockId, w: WordId, ids: seq<WordId>)
      requires b in blockWords
      requires AllNormal(State(), ids)
      modifies this`blocks, this`blockWords, this`blockAttached, this`wordChars, this`wordParent,
               this`charValue, this`charParent, this`next
      ensures State() == Chained(old(State()), b, w, ids)
      decreases 3
    {
      ghost var h := State();
      var prev := w;
      var i := 0;
      ChainedNone(h, b, w);
      while i < |ids|
        invariant 0 <= i <= |ids|
        invariant prev == if i == 0 then w else ids[i - 1]
        invariant State() == Chained(h, b, w, ids[..i])
      {
        TakeOneMore(ids, i);
        var v := ids[i];
        ChainedStep(h, b, w, ids[..i], prev, v);
        SplitNoop(SplicedAfter(State(), b, Some(prev), v), v);
        InsertWordAfter(b, Some(prev), Some(v));
        prev := v;
        i := i + 1;
      }
      assert ids[..|ids|] == ids;
    }

    /** The `forEach` at word.js:148-152: a block per group, each inserted after the one before. */
    method MakeBlocks(b: BlockId, gs: seq<seq<WordId>>) returns (last: BlockId)
      requires forall g: seq<WordId> :: g in gs ==> g != []
      modifies this`blocks, this`blockWords, this`blockAttached, this`wordChars, this`wordParent,
               this`charValue, this`charParent, this`next
      ensures last == LastBlock(old(State()), b, gs)
      ensures State() == WithBlocks(old(State()), b, gs)
    {
      ghost var h := State();
      last := b;
      var i := 0;
      WithBlocksNone(h, b);
      while i < |gs|
        invariant 0 <= i <= |gs|
        invariant last == LastBlock(h, b, gs[..i])
        invariant State() == WithBlocks(h, b, gs[..i])
      {
        assert gs[i] in gs;
        TakeOneMore(gs, i);
        var nb := NewBlockOf(gs[i], false);
        InsertBlockAfter(Some(last), Some(nb));
        WithBlocksStep(h, b, gs[..i], gs[i], last, nb);
        last := nb;
        i := i + 1;
      }
      assert gs[..|gs|] == gs;
    }

    /** The `forEach` at word.js:155-157: each cut-off word is appended to the last block. */
    method AppendWords(b: BlockId, ws: seq<WordId>)
      requires b in blockWords
      requires AllNormal(State(), ws)
      modifies this`blocks, this`blockWords, this`blockAttached, this`wordChars, this`wordParent,
               this`charValue, this`charParent, this`next
      ensures State() == Appended(old(State()), b, ws)
      decreases 3
    {
      ghost var h := State();
      var i := 0;
      AppendedNone(h, b);
      while i < |ws|
        invariant 0 <= i <= |ws|
        invariant State() == Appended(h, b, ws[..i])
      {
        TakeOneMore(ws, i);
        var v := ws[i];
        AppendedStep(h, b, ws[..i], v);
        SplitNoop(SplicedAfter(State(), b, None, v), v);
        InsertWordAfter(b, None, Some(v));
        i := i + 1;
      }
      assert ws[..|ws|] == ws;
    }

    /** `word.insertAfter(refChar, chars)` (word.js:169-187). */
    method InsertCharsAfter(w: WordId, ref: Option<CharId>, cs: Option<seq<CharId>>)
      requires w in wordChars
      requires cs.Some? ==> SplitOK(CharsAddedAfter(State(), w, ref, cs.value), w)
      modifies this`blocks, this`blockWords, this`blockAttached, this`wordChars, this`wordParent,
               this`charValue, this`charParent, this`next
      ensures State() == InsertCharsAfterEffect(old(State()), w, ref, cs)
    {
      if cs.None? {
        return;
      }
      var xs := cs.value;
      AdoptChars(w, xs);
      var ws := wordChars[w];
      var k := Find(ws, ref);
      if k == -1 {
        wordChars := wordChars[w := ws + xs];
      } else {
        k := k + 1;
        InsertAfterSlices(ws, ref, xs, k);
        wordChars := wordChars[w := ws[..k] + xs + ws[k..]];
      }
      assert wordChars[w] == InsertAfter(ws, ref, xs);
      Split(w);
    }

    /** `word.insertBefore(refChar, chars)` (word.js:197-214). */
    method InsertCharsBefore(w: WordId, ref: Option<CharId>, cs: Option<seq<CharId>>)
      requires w in wordChars
      requires cs.Some? ==> SplitOK(CharsAddedBefore(State(), w, ref, cs.value), w)
      modifies this`blocks, this`blockWords, this`blockAttached, this`wordChars, this`wordParent,
               this`charValue, this`charParent, this`next
      ensures State() == InsertCharsBeforeEffect(old(State()), w, ref, cs)
    {
      if cs.None? {
        return;
      }
      var xs := cs.value;
      AdoptChars(w, xs);
      var ws := wordChars[w];
      var k := Find(ws, ref);
      if k == -1 {
        wordChars := wordChars[w := xs + ws];
      } else {
        InsertBeforeSlices(ws, ref, xs, k);
        wordChars := wordChars[w := ws[..k] + xs + ws[k..]];
      }
      assert wordChars[w] == InsertBefore(ws, ref, xs);
      Split(w);
    }

    /** `word.removeChar(char)` (word.js:221-226). */
    method RemoveChar(w: WordId, c: CharId)
      requires w in wordChars
      modifies this`wordChars
      ensures State() == CharRemoved(old(State()), w, c)
    {
      var cs := wordChars[w];
      var i := IndexOf(cs, c);
      if i != -1 {
        RemoveFirstSlices(cs, c);
        wordChars := wordChars[w := cs[..i] + cs[i + 1..]];
      }
    }

    // -------------------------------------------------------------------------------
    // Block (block.js)

    /** `block.insertAfter(refWord, word)` (block.js:35-52). */
    method InsertWordAfter(b: BlockId, ref: Option<WordId>, v: Option<WordId>)
      requires b in blockWords
      requires v.Some? ==> SplitOK(SplicedAfter(State(), b, ref, v.value), v.value)
      modifies this`blocks, this`blockWords, this`blockAttached, this`wordChars, this`wordParent,
               this`charValue, this`charParent, this`next
      ensures State() == InsertWordAfterEffect(old(State()), b, ref, v)
      decreases if v.Some? && v.value in wordChars && Normal(wordChars[v.value], KindIn(charValue)) then 1 else 7
    {
      if v.None? {
        return;
      }
      var word := v.value;
      if word in wordChars {
        NormalIsNoSplit(wordChars[word], KindIn(charValue));
      }
      wordParent := wordParent[word := Some(b)];
      var ws := blockWords[b];
      var k := Find(ws, ref);
      if k == -1 {
        k := |ws|;
      } else {
        k := k + 1;
      }
      InsertAfterSlices(ws, ref, [word], k);
      blockWords := blockWords[b := ws[..k] + [word] + ws[k..]];
      assert blockWords[b] == InsertAfter(ws, ref, [word]);
      Split(word);
    }

    /** `block.insertBefore(refWord, word)` (block.js:62-77). */
    method InsertWordBefore(b: BlockId, ref: Option<WordId>, v: Option<WordId>)
      requires b in blockWords
      requires v.Some? ==> SplitOK(SplicedBefore(State(), b, ref, v.value), v.value)
      modifies this`blocks, this`blockWords, this`blockAttached, this`wordChars, this`wordParent,
               this`charValue, this`charParent, this`next
      ensures State() == InsertWordBeforeEffect(old(State()), b, ref, v)
    {
      if v.None? {
        return;
      }
      var word := v.value;
      wordParent := wordParent[word := Some(b)];
      var ws := blockWords[b];
      var k := Find(ws, ref);
      if k == -1 {
        blockWords := blockWords[b := [word] + ws];
      } else {
        InsertBeforeSlices(ws, ref, [word], k);
        blockWords := blockWords[b := ws[..k] + [word] + ws[k..]];
      }
      assert blockWords[b] == InsertBefore(ws, ref, [word]);
      Split(word);
    }

    /** `block.removeWordsAfter(refWord)` (block.js:88-95). */
    method RemoveWordsAfter(b: BlockId, ref: WordId) returns (removed: seq<WordId>)
      requires b in blockWords
      modifies this`blockWords
      ensures removed == CutAfter(old(blockWords)[b], ref).1
      ensures State() == WordsCut(old(State()), b, ref)
    {
      var ws := blockWords[b];
      var i := IndexOf(ws, ref);
      if i == -1 || i == |ws| - 1 {
        return [];
      }
      removed := ws[i + 1..];
      blockWords := blockWords[b := ws[..i + 1]];
    }

    /** `block.removeWord(word)` (block.js:103-114). */
    method RemoveWord(b: BlockId, v: WordId)
      requires CanRemoveWord(State(), b, v)
      modifies this`blocks, this`blockAttached, this`blockWords, this`wordParent
      ensures State() == WordRemoved(old(State()), b, v)
    {
      var ws := blockWords[b];
      var i := IndexOf(ws, v);
      if i != -1 {
        RemoveFirstSlices(ws, v);
        blockWords := blockWords[b := ws[..i] + ws[i + 1..]];
        wordParent := wordParent[v := None];
      }
      if |blockWords[b]| == 0 {
        RemoveBlock(b);
      }
    }

    // -------------------------------------------------------------------------------
    // Document (document.js)

    /** `document.insertAfter(refBlock, block)` (document.js:127-142). */
    method InsertBlockAfter(ref: Option<BlockId>, b: Option<BlockId>)
      modifies this`blocks, this`blockAttached
      ensures State() == if b.None? then old(State()) else BlockInserted(old(State()), ref, b.value)
    {
      if b.None? {
        return;
      }
      blockAttached := blockAttached[b.value := true];
      var k := Find(blocks, ref);
      if k == -1 {
        k := |blocks|;
      } else {
        k := k + 1;
      }
      InsertAfterSlices(blocks, ref, [b.value], k);
      blocks := blocks[..k] + [b.value] + blocks[k..];
    }

    /** `document.removeBlock(block)` (document.js:148-154). */
    method RemoveBlock(b: BlockId)
      modifies this`blocks, this`blockAttached
      ensures State() == BlockRemoved(old(State()), b)
    {
      var i := IndexOf(blocks, b);
      if i != -1 {
        RemoveFirstSlices(blocks, b);
        blocks := blocks[..i] + blocks[i + 1..];
        blockAttached := blockAttached[b := false];
      }
    }

    /** `document.insertCharsAt(index, str)` (document.js:60-100). */
    method InsertCharsAt(index: int, str: string)
      requires CanInsertCharsAt(State(), index, str)
      modifies this
      ensures State() == InsertCharsAtEffect(old(State()), index, str)
    {
      if str == "" {
        return;
      }
      ghost var h := State();
      // The target is read off the old chars and parents; the new chars are fresh and touch neither.
      var t := TargetOf(State(), index).value;
      var newChars := MakeChars(UnitsOf(str));
      InsertCharsAtSteps(h, index, str, t, State(), newChars);
      Place(t, newChars);
      chars := chars[..index] + newChars + chars[index..];
    }

    /** document.js:82-95: the new chars ids go where target t says, a new word made for them if need be. */
    method Place(t: Target, ids: seq<CharId>)
      requires CanPlaceIn(Staged(State(), ids, t), ids, next, t)
      modifies this`blocks, this`blockWords, this`blockAttached, this`wordChars, this`wordParent,
               this`charValue, this`charParent, this`next
      ensures State() == PlacedIn(Staged(old(State()), ids, t), ids, old(next), t)
    {
      match t
      case BeforeNext(v, ref) =>
        InsertCharsBefore(v, ref, Some(ids));
      case FrontOfNext(v) =>
        InsertCharsBefore(v, None, Some(ids));
      case NewWordAfter(b, prev) =>
        var nw := NewWord(Adopt(ids), None);
        InsertWordAfter(b, Some(prev), Some(nw));
      case AfterPrev(v, ref) =>
        InsertCharsAfter(v, Some(ref), Some(ids));
    }

    /** `str.split('').map(part => new Char(part))` (document.js:71-73). */
    method MakeChars(us: seq<string>) returns (cs: seq<CharId>)
      modifies this`charValue, this`charParent, this`next
      ensures cs == Ids(old(next), |us|)
      ensures State() == WithChars(old(State()), us)
    {
      ghost var h := State();
      cs := [];
      var i := 0;
      WithCharsNone(h);
      while i < |us|
        invariant 0 <= i <= |us|
        invariant cs == Ids(h.next, i)
        invariant State() == WithChars(h, us[..i])
      {
        TakeOneMore(us, i);
        WithCharsStep(h, us[..i], us[i], State());
        IdsSnoc(h.next, i);
        var c := NewChar(Some(us[i]), None);
        cs := cs + [c];
        i := i + 1;
      }
      assert us[..|us|] == us;
    }

    /** `document.removeCharsAt(index, count)` (document.js:107-117). */
    method RemoveCharsAt(index: int, count: int)
      requires CanRemoveCharsAt(State(), index, count)
      modifies this`chars, this`wordChars
      ensures State() == RemoveCharsAtEffect(old(State()), index, count)
    {
      if !(0 <= index < |chars|) {
        return;
      }
      ghost var h := State();
      var k := Taken(|chars|, index, count);
      var removed := chars[index..index + k];
      chars := chars[..index] + chars[index + k..];
      RemoveCharsAtSteps(h, index, count, State(), removed);
      RemoveEachChar(removed);
    }

    /** `removedChars.forEach(char => char.parent.removeChar(char))` (document.js:114-116). */
    method RemoveEachChar(cs: seq<CharId>)
      requires Parented(State(), cs)
      modifies this`wordChars
      ensures State() == RemoveEach(old(State()), cs)
    {
      ghost var h := State();
      var i := 0;
      assert cs[..0] == [];
      while i < |cs|
        invariant 0 <= i <= |cs|
        invariant Parented(h, cs[..i]) && State() == RemoveEach(h, cs[..i])
      {
        RemoveEachTurn(h, cs, i, State());
        RemoveChar(charParent[cs[i]].value, cs[i]);
        i := i + 1;
      }
      assert cs[..|cs|] == cs;
    }

    /** `document.execAction(action, selection)` (document.js:31-49). */
    method ExecAction(action: string, start: int, end: int)
      requires CanExecAction(State(), start, end)
      modifies this`charValue
      ensures State() == ExecActionEffect(old(State()), action, start, end)
    {
      if !(0 <= start < |chars|) {
        return;
      }
      ghost var h := State();
      ghost var stop := Stop(|chars|, start, end);
      var nextWord: Option<WordId> := None;
      var i := start;
      while i < |chars| && i < end
        invariant start <= i <= stop
        invariant nextWord == LastParent(ParentsIn(h, start, i))
        invariant Toggleable(h, Heads(ParentsIn(h, start, i)))
        invariant State() == h.(charValue := ToggleAll(h, action, Heads(ParentsIn(h, start, i))).charValue)
      {
        ghost var ws := Heads(ParentsIn(h, start, i));
        var c := chars[i];
        var parent := if c in charParent then charParent[c] else None;
        ExecStep(h, start, i, stop, nextWord);
        assert parent == ParentOf(h, Some(h.chars[i]));
        if parent != nextWord {
          nextWord := parent;
          if parent.Some? {
            ToggleStep(h, action, ws, parent.value, State());
            ToggleProp(parent.value, action);
            assert Heads(ParentsIn(h, start, i + 1)) == ws + [parent.value];
          } else {
            assert Heads(ParentsIn(h, start, i + 1)) == ws;
          }
        } else {
          assert Heads(ParentsIn(h, start, i + 1)) == ws;
        }
        i := i + 1;
      }
      assert i == stop;
      ToggledState(h, action, Heads(ParentsIn(h, start, stop)), State());
    }

    /** `new Document(text)` (document.js:11-22). */
    constructor (text: string)
      ensures State() == NewDocument(text)
    {
      blocks, chars, tail := [], [], 0;
      blockWords, blockAttached := map[], map[];
      wordChars, wordParent := map[], map[];
      charValue, charParent := map[], map[];
      next := 0;
      new;
      var b := NewBlock(None, true);
      blocks := [b];
      EmptyDocumentBuilt();
      chars := BlocksChars(blockWords, wordChars, blocks);
      tail := chars[0];
      assert State() == EmptyDocument();
      NewDocumentDefined(text);
      if text != "" {
        InsertCharsAt(0, text);
      }
    }
  }
}
