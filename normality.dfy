/**
 * The shape `word.split()` leaves every word in: no separator anywhere but in the last
 * place (src/js/word.js:111-114 stops right there).  Every operation of a Document keeps
 * all of its words in that shape, so a word about to be split is the only one that may
 * not be, and the re-insertion of its siblings at word.js:155-157 never splits again.
 */
module Normality {
  import opened Wrappers
  import opened Util
  import opened Seqs
  import opened WordScan
  import opened Chars
  import opened Tree
  import opened Words
  import opened Blocks
  import opened Documents
  import opened SplitFacts
  import opened WordOrder
  import opened SplitText

  /** Every word of the store holds a run the scan leaves as it is. */
  ghost predicate AllWordsNormal(h: Heap)
  {
    forall v: WordId :: v in h.wordChars ==> Normal(h.wordChars[v], KindIn(h.charValue))
  }

  /** Every word but w holds such a run: the state right after a splice into w. */
  ghost predicate NormalBut(h: Heap, w: WordId)
  {
    forall v: WordId :: v in h.wordChars && v != w ==> Normal(h.wordChars[v], KindIn(h.charValue))
  }

  /** Whether a list is normal only depends on how its own chars are classified. */
  lemma {:induction false} NormalFrame(cs: seq<CharId>, cv: map<CharId, Char>, cv': map<CharId, Char>)
    requires forall c: CharId :: c in cs ==> KindIn(cv')(c) == KindIn(cv)(c)
    ensures Normal(cs, KindIn(cv')) == Normal(cs, KindIn(cv))
  {
    assert forall j :: 0 <= j < |cs| ==> KindIn(cv')(cs[j]) == KindIn(cv)(cs[j]) by {
      forall j | 0 <= j < |cs| ensures KindIn(cv')(cs[j]) == KindIn(cv)(cs[j]) {
        assert cs[j] in cs;
      }
    }
  }

  /** A list with one element taken out of a normal list is normal. */
  lemma {:induction false} NormalDrop(cs: seq<CharId>, i: nat, kind: CharId -> Kind)
    requires i < |cs| && Normal(cs, kind)
    ensures Normal(cs[..i] + cs[i + 1..], kind)
  {
    var r := cs[..i] + cs[i + 1..];
    forall j | 0 <= j < |r| - 1 ensures kind(r[j]) == Plain {
      if j < i {
        assert r[j] == cs[j];
      } else {
        assert r[j] == cs[j + 1];
      }
    }
  }

  // ---------------------------------------------------------------------------------
  // The split

  /**
   * When every word but w is normal, the words after w are, so the model's condition on
   * the re-inserted siblings (word.js:155-157) holds in any well-formed store.
   */
  lemma {:induction false} NormalSiblings(h: Heap, w: WordId)
    requires WellFormed(h) && CanSplit(h, w) && NormalBut(h, w)
    ensures SplitOK(h, w)
  {
    if PlanIn(h, w).Split? && PlanIn(h, w).groups != [] {
      var b := h.wordParent[w].value;
      var cut := CutAfter(h.blockWords[b], w);
      forall v: WordId | v in cut.1 && v != w ensures v in h.wordChars && Normal(h.wordChars[v], KindIn(h.charValue)) {
        assert v in cut.0 + cut.1;
      }
    }
  }

  /**
   * `word.split()` leaves every word normal once every word but the one split is: the word
   * keeps a run closed by its first separator and each new word holds one run (word.js:87-126).
   */
  lemma {:induction false} SplitNormalizes(h: Heap, w: WordId)
    requires CanSplit(h, w) && NormalBut(h, w)
    ensures AllWordsNormal(SplitEffect(h, w))
  {
    var kind := KindIn(h.charValue);
    NormalIsNoSplit(h.wordChars[w], kind);
    if PlanIn(h, w).Split? {
      var p := PlanIn(h, w);
      SplitChars(h, w);
      PlanIsGood(h.wordChars[w], kind);
      var wc1 := h.wordChars[w := p.first];
      assert forall v: WordId :: v in wc1 ==> Normal(wc1[v], kind);
      FillNormal(wc1, h.next, NewRuns(p), kind);
    }
  }

  /** Filling in normal runs over normal lists leaves only normal lists. */
  lemma {:induction false} FillNormal(wc: map<WordId, seq<CharId>>, m: nat, runs: seq<seq<CharId>>, kind: CharId -> Kind)
    requires forall v: WordId :: v in wc ==> Normal(wc[v], kind)
    requires forall r: seq<CharId> :: r in runs ==> r != [] && Normal(r, kind)
    ensures forall v: WordId :: v in Fill(wc, m, runs) ==> Normal(Fill(wc, m, runs)[v], kind)
    decreases |runs|
  {
    if runs != [] {
      var init := runs[..|runs| - 1];
      assert forall r: seq<CharId> :: r in init ==> r in runs;
      FillNormal(wc, m, init, kind);
      assert runs[|runs| - 1] in runs;
    }
  }

  // ---------------------------------------------------------------------------------
  // The operations of a Document

  /** An empty document's one word holds only the terminator. */
  lemma {:induction false} EmptyDocumentNormal()
    ensures AllWordsNormal(EmptyDocument())
  {
  }

  /** New chars nobody holds yet change how no word is classified. */
  lemma {:induction false} WithCharsNormal(h: Heap, us: seq<string>)
    requires WellFormed(h) && AllWordsNormal(h)
    ensures AllWordsNormal(WithChars(h, us))
  {
    var h1 := WithChars(h, us);
    NewValuesAt(h.charValue, h.next, us);
    forall v: WordId | v in h1.wordChars ensures Normal(h1.wordChars[v], KindIn(h1.charValue)) {
      NormalFrame(h.wordChars[v], h.charValue, h1.charValue);
    }
  }

  /** The splice of `insertCharsAt` touches one word: the word the split then runs on. */
  lemma {:induction false} PlaceNormal(h1: Heap, ids: seq<CharId>, v: WordId, t: Target)
    requires AllWordsNormal(h1) && CanPlaceIn(Staged(h1, ids, t), ids, v, t)
    requires t.NewWordAfter? ==> v == h1.next
    ensures AllWordsNormal(PlacedIn(Staged(h1, ids, t), ids, v, t))
  {
    var s := Staged(h1, ids, t);
    match t
    case BeforeNext(w, ref) => SplitNormalizes(CharsAddedBefore(s, w, ref, ids), w);
    case FrontOfNext(w) => SplitNormalizes(CharsAddedBefore(s, w, None, ids), w);
    case NewWordAfter(b, p) => SplitNormalizes(SplicedAfter(s, b, Some(p), v), v);
    case AfterPrev(w, ref) => SplitNormalizes(CharsAddedAfter(s, w, Some(ref), ids), w);
  }

  /** `insertCharsAt(index, str)` (document.js:60-100) keeps every word normal. */
  lemma {:induction false} InsertCharsAtNormal(h: Heap, index: int, str: string)
    requires WellFormed(h) && AllWordsNormal(h) && CanInsertCharsAt(h, index, str)
    ensures AllWordsNormal(InsertCharsAtEffect(h, index, str))
  {
    if str != "" {
      var t := TargetOf(h, index).value;
      var h1 := WithChars(h, UnitsOf(str));
      var ids := Ids(h.next, |UnitsOf(str)|);
      InsertCharsAtSteps(h, index, str, t, h1, ids);
      WithCharsNormal(h, UnitsOf(str));
      PlaceNormal(h1, ids, h1.next, t);
    }
  }

  /** Taking chars out of words keeps every word normal. */
  lemma {:induction false} RemoveEachNormal(h: Heap, cs: seq<CharId>)
    requires AllWordsNormal(h) && Parented(h, cs)
    ensures AllWordsNormal(RemoveEach(h, cs))
    decreases |cs|
  {
    if cs != [] {
      var m := RemoveEach(h, cs[..|cs| - 1]);
      var c := cs[|cs| - 1];
      ParentedPrefix(h, cs, |cs| - 1);
      RemoveEachNormal(h, cs[..|cs| - 1]);
      var w := m.charParent[c].value;
      assert c in cs;
      CharRemovedFacts(m, w, c);
      if c in m.wordChars[w] {
        NormalDrop(m.wordChars[w], IndexOf(m.wordChars[w], c), KindIn(m.charValue));
      }
    }
  }

  /** `removeCharsAt(index, count)` (document.js:107-117) keeps every word normal. */
  lemma {:induction false} RemoveCharsAtNormal(h: Heap, index: int, count: int)
    requires AllWordsNormal(h) && CanRemoveCharsAt(h, index, count)
    ensures AllWordsNormal(RemoveCharsAtEffect(h, index, count))
  {
    if 0 <= index < |h.chars| {
      var k := Taken(|h.chars|, index, count);
      var h1 := h.(chars := h.chars[..index] + h.chars[index + k..]);
      RemoveCharsAtSteps(h, index, count, h1, h.chars[index..index + k]);
      RemoveEachNormal(h1, h.chars[index..index + k]);
    }
  }

  /** Toggling formatting changes no char's text, so it classifies every char as before. */
  lemma {:induction false} ToggleAllKinds(h: Heap, action: string, ws: seq<WordId>)
    requires Toggleable(h, ws)
    ensures forall c: CharId :: KindIn(ToggleAll(h, action, ws).charValue)(c) == KindIn(h.charValue)(c)
    decreases |ws|
  {
    if ws != [] {
      var init, v := ws[..|ws| - 1], ws[|ws| - 1];
      ToggleAllStep(h, action, init, v);
      ToggleAllKinds(h, action, init);
      var m := ToggleAll(h, action, init);
      assert v in ws;
      ToggleFacts(m, v, action);
    }
  }

  /** `execAction(action, selection)` (document.js:31-49) keeps every word normal. */
  lemma {:induction false} ExecActionNormal(h: Heap, action: string, start: int, end: int)
    requires AllWordsNormal(h) && CanExecAction(h, start, end)
    ensures AllWordsNormal(ExecActionEffect(h, action, start, end))
  {
    if 0 <= start < |h.chars| {
      var ws := Heads(ParentsIn(h, start, Stop(|h.chars|, start, end)));
      var r := ToggleAll(h, action, ws);
      ToggleAllKinds(h, action, ws);
      forall v: WordId | v in r.wordChars ensures Normal(r.wordChars[v], KindIn(r.charValue)) {
        NormalFrame(h.wordChars[v], h.charValue, r.charValue);
      }
    }
  }

  /** `new Document(text)` (document.js:11-22) holds only normal words. */
  lemma {:induction false} NewDocumentNormal(text: string)
    ensures AllWordsNormal(NewDocument(text))
  {
    EmptyDocumentNormal();
    NewDocumentDefined(text);
    if text != "" {
      EmptyDocumentWellFormed();
      InsertCharsAtNormal(EmptyDocument(), 0, text);
    }
  }
}
