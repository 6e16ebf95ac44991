/**
 * The flat `chars` array of a Document next to its tree of blocks, words and chars.  The
 * source keeps the two in step by hand: insertCharsAt splices the new chars into both
 * (document.js:61-63 and 82-99) and removeCharsAt takes the removed ones out of both
 * (document.js:112-116).  `Synced` is that agreement.
 */
module Sync {
  import opened Wrappers
  import opened Seqs
  import opened Tree
  import opened Words
  import opened Documents

  /** Each char a word lists has that word as its parent. */
  ghost predicate ParentsAgree(h: Heap)
  {
    forall v: WordId, c: CharId :: v in h.wordChars && c in h.wordChars[v] ==> c in h.charParent && h.charParent[c] == Some(v)
  }

  /** `chars` is the tree's chars in document order, each once, each parented by the word listing it. */
  ghost predicate Synced(h: Heap)
  {
    WellFormed(h) && h.chars == Flatten(h) && Distinct(h.chars) && ParentsAgree(h)
  }

  // ---------------------------------------------------------------------------------
  // Taking elements out of a list

  /** The elements of s that are not in r, in order. */
  function Minus(s: seq<CharId>, r: set<CharId>): seq<CharId>
    decreases |s|
  {
    if s == [] then [] else Minus(s[..|s| - 1], r) + (if s[|s| - 1] in r then [] else [s[|s| - 1]])
  }

  /** The elements of s, as a set. */
  function Elems(s: seq<CharId>): set<CharId>
    decreases |s|
  {
    if s == [] then {} else Elems(s[..|s| - 1]) + {s[|s| - 1]}
  }

  lemma {:induction false} ElemsIn(s: seq<CharId>)
    ensures forall x: CharId :: x in Elems(s) <==> x in s
    decreases |s|
  {
    if s != [] {
      assert s == s[..|s| - 1] + [s[|s| - 1]];
      ElemsIn(s[..|s| - 1]);
    }
  }

  /** What is left is what was there and not taken out. */
  lemma {:induction false} MinusIn(s: seq<CharId>, r: set<CharId>)
    ensures forall x: CharId :: x in Minus(s, r) <==> x in s && x !in r
    decreases |s|
  {
    if s != [] {
      assert s == s[..|s| - 1] + [s[|s| - 1]];
      MinusIn(s[..|s| - 1], r);
    }
  }

  lemma {:induction false} MinusAppend(a: seq<CharId>, b: seq<CharId>, r: set<CharId>)
    ensures Minus(a + b, r) == Minus(a, r) + Minus(b, r)
    decreases |b|
  {
    if b == [] {
      assert a + b == a;
    } else {
      assert (a + b)[..|a + b| - 1] == a + b[..|b| - 1];
      MinusAppend(a, b[..|b| - 1], r);
    }
  }

  /** Nothing to take out leaves the list as it is. */
  lemma {:induction false} MinusNone(s: seq<CharId>, r: set<CharId>)
    requires forall x: CharId :: x in s ==> x !in r
    ensures Minus(s, r) == s
    decreases |s|
  {
    if s != [] {
      assert s == s[..|s| - 1] + [s[|s| - 1]];
      MinusNone(s[..|s| - 1], r);
    }
  }

  /** Taking out every element leaves nothing. */
  lemma {:induction false} MinusAll(s: seq<CharId>, r: set<CharId>)
    requires forall x: CharId :: x in s ==> x in r
    ensures Minus(s, r) == []
    decreases |s|
  {
    if s != [] {
      assert s == s[..|s| - 1] + [s[|s| - 1]];
      MinusAll(s[..|s| - 1], r);
    }
  }

  /** Taking out r and then c is taking out r and c. */
  lemma {:induction false} MinusMore(s: seq<CharId>, r: set<CharId>, c: CharId)
    ensures Minus(s, r + {c}) == Minus(Minus(s, r), {c})
    decreases |s|
  {
    if s != [] {
      var init, x := s[..|s| - 1], s[|s| - 1];
      MinusMore(init, r, c);
      var tail := if x in r then [] else [x];
      MinusAppend(Minus(init, r), tail, {c});
      if x !in r {
        assert [x][..0] == [];
      }
    }
  }

  lemma {:induction false} MinusDistinct(s: seq<CharId>, r: set<CharId>)
    requires Distinct(s)
    ensures Distinct(Minus(s, r))
    decreases |s|
  {
    if s != [] {
      var init, x := s[..|s| - 1], s[|s| - 1];
      assert s == init + [x];
      MinusDistinct(init, r);
      if x !in r {
        MinusIn(init, r);
        DistinctSnoc(Minus(init, r), x);
      }
    }
  }

  lemma {:induction false} DistinctSnoc(a: seq<CharId>, x: CharId)
    requires Distinct(a) && x !in a
    ensures Distinct(a + [x])
  {
    forall i, j | 0 <= i < j < |a| + 1 ensures (a + [x])[i] != (a + [x])[j] {
      if j == |a| {
        assert (a + [x])[i] == a[i];
      } else {
        assert (a + [x])[i] == a[i] && (a + [x])[j] == a[j];
      }
    }
  }

  /** The two parts of a list without repeats are without repeats. */
  lemma {:induction false} DistinctHalves(a: seq<CharId>, b: seq<CharId>)
    requires Distinct(a + b)
    ensures Distinct(a) && Distinct(b)
  {
    forall i, j | 0 <= i < j < |b| ensures b[i] != b[j] {
      assert (a + b)[|a| + i] == b[i] && (a + b)[|a| + j] == b[j];
    }
    forall i, j | 0 <= i < j < |a| ensures a[i] != a[j] {
      assert (a + b)[i] == a[i] && (a + b)[j] == a[j];
    }
  }

  /** In a list without repeats, an element of the back part is not in the front part. */
  lemma {:induction false} DistinctFront(a: seq<CharId>, b: seq<CharId>, x: CharId)
    requires Distinct(a + b) && x in b
    ensures x !in a
  {
    var q :| 0 <= q < |b| && b[q] == x;
    forall p | 0 <= p < |a| ensures a[p] != x {
      assert (a + b)[p] == a[p] && (a + b)[|a| + q] == b[q];
    }
  }

  lemma {:induction false} ThreeParts(s: seq<CharId>, i: nat, j: nat)
    requires i <= j <= |s|
    ensures s == s[..i] + s[i..j] + s[j..]
  {
  }

  /** In a list without repeats, taking out the elements of a slice leaves the rest around it. */
  lemma {:induction false} MinusSlice(s: seq<CharId>, i: nat, j: nat)
    requires Distinct(s) && i <= j <= |s|
    ensures Minus(s, Elems(s[i..j])) == s[..i] + s[j..]
  {
    var r := Elems(s[i..j]);
    ElemsIn(s[i..j]);
    ThreeParts(s, i, j);
    var a, m, c := s[..i], s[i..j], s[j..];
    forall x | x in a ensures x !in r {
      if x in m {
        DistinctApart(a, m, c, x);
      }
    }
    forall x | x in c ensures x !in r {
      DistinctFront(a + m, c, x);
    }
    SliceMinus(a, m, c, r);
  }

  lemma {:induction false} SliceMinus(a: seq<CharId>, m: seq<CharId>, c: seq<CharId>, r: set<CharId>)
    requires (forall x: CharId :: x in a ==> x !in r) && (forall x: CharId :: x in c ==> x !in r)
    requires forall x: CharId :: x in m ==> x in r
    ensures Minus(a + m + c, r) == a + c
  {
    calc {
      Minus(a + m + c, r);
      { MinusAppend(a + m, c, r); }
      Minus(a + m, r) + Minus(c, r);
      { MinusAppend(a, m, r); }
      Minus(a, r) + Minus(m, r) + Minus(c, r);
      { MinusNone(a, r); MinusAll(m, r); MinusNone(c, r); }
      a + [] + c;
    }
    assert a + [] + c == a + c;
  }

  /** In a list without repeats, removing the first copy is taking the element out. */
  lemma {:induction false} RemoveFirstIsMinus(s: seq<CharId>, c: CharId)
    requires Distinct(s)
    ensures RemoveFirst(s, c) == Minus(s, {c})
  {
    if c in s {
      RemoveFirstSlices(s, c);
      var i := IndexOf(s, c);
      ThreeParts(s, i, i + 1);
      var a, b := s[..i], s[i + 1..];
      assert s[i..i + 1] == [c];
      forall x | x in b ensures x != c {
        DistinctFront(a + [c], b, x);
      }
      SliceMinus(a, [c], b, {c});
    } else {
      MinusNone(s, {c});
    }
  }

  // ---------------------------------------------------------------------------------
  // Where a char of the tree sits

  /** A char of the words ws is listed by one of them. */
  lemma {:induction false} InWords(wc: map<WordId, seq<CharId>>, ws: seq<WordId>, c: CharId) returns (v: WordId)
    requires (forall x: WordId :: x in ws ==> x in wc) && c in WordsChars(wc, ws)
    ensures v in ws && c in wc[v]
    decreases |ws|
  {
    var init, last := ws[..|ws| - 1], ws[|ws| - 1];
    if c in wc[last] {
      v := last;
    } else {
      v := InWords(wc, init, c);
    }
  }

  /** A char of the blocks bs is listed by a word of one of them. */
  lemma {:induction false} InBlocks(bw: map<BlockId, seq<WordId>>, wc: map<WordId, seq<CharId>>, bs: seq<BlockId>, c: CharId)
    returns (b: BlockId, v: WordId)
    requires BlocksIn(bw, wc, bs) && c in BlocksChars(bw, wc, bs)
    ensures b in bs && b in bw && v in bw[b] && v in wc && c in wc[v]
    decreases |bs|
  {
    var init, last := bs[..|bs| - 1], bs[|bs| - 1];
    if c in WordsChars(wc, bw[last]) {
      b := last;
      v := InWords(wc, bw[last], c);
    } else {
      b, v := InBlocks(bw, wc, init, c);
    }
  }

  /** The char list of a word of the blocks is a part of their chars, so without repeats when they are. */
  lemma {:induction false} WordDistinct(bw: map<BlockId, seq<WordId>>, wc: map<WordId, seq<CharId>>, bs: seq<BlockId>, b: BlockId, v: WordId)
    requires BlocksIn(bw, wc, bs) && Distinct(BlocksChars(bw, wc, bs)) && b in bs && v in bw[b]
    ensures Distinct(wc[v])
    decreases |bs|
  {
    var init, last := bs[..|bs| - 1], bs[|bs| - 1];
    DistinctHalves(BlocksChars(bw, wc, init), WordsChars(wc, bw[last]));
    if b == last {
      WordsDistinct(wc, bw[b], v);
    } else {
      WordDistinct(bw, wc, init, b, v);
    }
  }

  lemma {:induction false} WordsDistinct(wc: map<WordId, seq<CharId>>, ws: seq<WordId>, v: WordId)
    requires (forall x: WordId :: x in ws ==> x in wc) && Distinct(WordsChars(wc, ws)) && v in ws
    ensures Distinct(wc[v])
    decreases |ws|
  {
    var init, last := ws[..|ws| - 1], ws[|ws| - 1];
    DistinctHalves(WordsChars(wc, init), wc[last]);
    if v != last {
      WordsDistinct(wc, init, v);
    }
  }

  // ---------------------------------------------------------------------------------
  // removeCharsAt

  /** Taking c out of the one word that holds it takes c out of the words' chars. */
  lemma {:induction false} WordsCharsMinus(wc: map<WordId, seq<CharId>>, ws: seq<WordId>, w: WordId, c: CharId)
    requires w in wc && forall v: WordId :: v in ws ==> v in wc
    requires forall v: WordId :: v in ws && v != w ==> c !in wc[v]
    ensures WordsChars(wc[w := Minus(wc[w], {c})], ws) == Minus(WordsChars(wc, ws), {c})
    decreases |ws|
  {
    if ws == [] {
      assert Minus([], {c}) == [];
    } else {
      var init, last := ws[..|ws| - 1], ws[|ws| - 1];
      WordsCharsMinus(wc, init, w, c);
      MinusAppend(WordsChars(wc, init), wc[last], {c});
      if last != w {
        MinusNone(wc[last], {c});
      }
    }
  }

  lemma {:induction false} BlocksCharsMinus(bw: map<BlockId, seq<WordId>>, wc: map<WordId, seq<CharId>>, bs: seq<BlockId>, w: WordId, c: CharId)
    requires w in wc && BlocksIn(bw, wc, bs)
    requires forall v: WordId :: v in wc && v != w ==> c !in wc[v]
    ensures BlocksIn(bw, wc[w := Minus(wc[w], {c})], bs)
    ensures BlocksChars(bw, wc[w := Minus(wc[w], {c})], bs) == Minus(BlocksChars(bw, wc, bs), {c})
    decreases |bs|
  {
    if bs == [] {
      assert Minus([], {c}) == [];
    } else {
      var init, last := bs[..|bs| - 1], bs[|bs| - 1];
      BlocksCharsMinus(bw, wc, init, w, c);
      WordsCharsMinus(wc, bw[last], w, c);
      MinusAppend(BlocksChars(bw, wc, init), WordsChars(wc, bw[last]), {c});
    }
  }

  /**
   * `char.parent.removeChar(char)` (word.js:221-226) on a char of the tree whose parent lists
   * it: the tree's chars lose exactly that char.
   */
  lemma {:induction false} CharRemovedFlatten(h: Heap, w: WordId, c: CharId)
    requires WellFormed(h) && ParentsAgree(h) && Distinct(Flatten(h)) && c in Flatten(h)
    requires w in h.wordChars && c in h.charParent && h.charParent[c] == Some(w)
    ensures var r := CharRemoved(h, w, c);
      WellFormed(r) && ParentsAgree(r) && Flatten(r) == Minus(Flatten(h), {c})
  {
    var b, v := InBlocks(h.blockWords, h.wordChars, h.blocks, c);
    assert v == w;
    WordDistinct(h.blockWords, h.wordChars, h.blocks, b, w);
    RemoveFirstIsMinus(h.wordChars[w], c);
    var l := Minus(h.wordChars[w], {c});
    assert CharRemoved(h, w, c) == h.(wordChars := h.wordChars[w := l]);
    MinusIn(h.wordChars[w], {c});
    ShrunkKeeps(h, w, l);
    OnlyParentHolds(h, w, c);
    BlocksCharsMinus(h.blockWords, h.wordChars, h.blocks, w, c);
  }

  /** When parents agree, no word but its parent lists a char. */
  lemma {:induction false} OnlyParentHolds(h: Heap, w: WordId, c: CharId)
    requires ParentsAgree(h) && c in h.charParent && h.charParent[c] == Some(w)
    ensures forall v: WordId :: v in h.wordChars && v != w ==> c !in h.wordChars[v]
  {
  }

  /** A word that keeps only some of its chars leaves the store well formed and the parents agreeing. */
  lemma {:induction false} ShrunkKeeps(h: Heap, w: WordId, l: seq<CharId>)
    requires WellFormed(h) && ParentsAgree(h) && w in h.wordChars
    requires forall x: CharId :: x in l ==> x in h.wordChars[w]
    ensures WellFormed(h.(wordChars := h.wordChars[w := l])) && ParentsAgree(h.(wordChars := h.wordChars[w := l]))
  {
  }

  /** `removedChars.forEach(char => char.parent.removeChar(char))` takes them all out of the tree's chars. */
  lemma {:induction false} RemoveEachFlatten(h: Heap, cs: seq<CharId>)
    requires WellFormed(h) && ParentsAgree(h) && Distinct(Flatten(h))
    requires Distinct(cs) && Parented(h, cs) && forall c: CharId :: c in cs ==> c in Flatten(h)
    ensures var r := RemoveEach(h, cs);
      WellFormed(r) && ParentsAgree(r) && Flatten(r) == Minus(Flatten(h), Elems(cs))
    decreases |cs|
  {
    if cs == [] {
      MinusNone(Flatten(h), {});
    } else {
      var init, c := cs[..|cs| - 1], cs[|cs| - 1];
      assert cs == init + [c];
      RemoveEachStep(h, init, c);
      assert Distinct(init) by {
        DistinctHalves(init, [c]);
      }
      RemoveEachFlatten(h, init);
      var m := RemoveEach(h, init);
      var before := Elems(init);
      ElemsIn(init);
      var w := h.charParent[c].value;
      DistinctFront(init, [c], c);
      MinusDistinct(Flatten(h), before);
      MinusIn(Flatten(h), before);
      CharRemovedFlatten(m, w, c);
      calc {
        Flatten(RemoveEach(h, cs));
        Flatten(CharRemoved(m, w, c));
        Minus(Minus(Flatten(h), before), {c});
        { MinusMore(Flatten(h), before, c); }
        Minus(Flatten(h), Elems(cs));
      }
    }
  }

  /** Every char of `chars` of a synced document has a parent word to be removed from. */
  lemma {:induction false} SyncedParented(h: Heap, cs: seq<CharId>)
    requires Synced(h) && forall c: CharId :: c in cs ==> c in h.chars
    ensures Parented(h, cs)
  {
    forall c: CharId | c in cs ensures c in h.charParent && h.charParent[c].Some? && h.charParent[c].value in h.wordChars {
      var b, v := InBlocks(h.blockWords, h.wordChars, h.blocks, c);
    }
  }

  /** The splice of `chars` changes nothing the tree's chars depend on. */
  lemma {:induction false} CharsSpliced(h: Heap, cs: seq<CharId>)
    requires Synced(h) && forall c: CharId :: c in cs ==> c in h.chars
    ensures WellFormed(h.(chars := cs)) && ParentsAgree(h.(chars := cs)) && Flatten(h.(chars := cs)) == Flatten(h)
  {
  }

  /** The slice a splice takes out of a list without repeats is without repeats and in the list. */
  lemma {:induction false} SliceOut(s: seq<CharId>, i: nat, j: nat)
    requires Distinct(s) && i <= j <= |s|
    ensures Distinct(s[i..j]) && (forall c: CharId :: c in s[i..j] ==> c in s)
    ensures forall c: CharId :: c in s[..i] + s[j..] ==> c in s
  {
    ThreeParts(s, i, j);
    DistinctHalves(s[..i] + s[i..j], s[j..]);
    DistinctHalves(s[..i], s[i..j]);
  }

  /**
   * `removeCharsAt(index, count)` (document.js:107-117) keeps `chars` and the tree in step:
   * every char of a synced document has a parent to be removed from, and the chars taken
   * out of the array are the chars taken out of the tree.
   */
  lemma {:induction false} RemoveCharsAtSynced(h: Heap, index: int, count: int)
    requires Synced(h)
    ensures CanRemoveCharsAt(h, index, count) && Synced(RemoveCharsAtEffect(h, index, count))
  {
    if 0 <= index < |h.chars| {
      var k := Taken(|h.chars|, index, count);
      var h1, removed := h.(chars := h.chars[..index] + h.chars[index + k..]), h.chars[index..index + k];
      SliceRemovedSynced(h, index, index + k);
      RemoveCharsAtSteps(h, index, count, h1, removed);
      SameSynced(RemoveEach(h1, removed), RemoveCharsAtEffect(h, index, count));
    } else {
      RemoveCharsAtChars(h, index, count);
    }
  }

  lemma {:induction false} SameSynced(a: Heap, b: Heap)
    requires Synced(a) && a == b
    ensures Synced(b)
  {
  }

  /** Splicing the slice i..j out of `chars` and then out of the tree keeps a document in step. */
  lemma {:induction false} SliceRemovedSynced(h: Heap, i: nat, j: nat)
    requires Synced(h) && i <= j <= |h.chars|
    ensures Parented(h, h.chars[i..j])
    ensures Parented(h.(chars := h.chars[..i] + h.chars[j..]), h.chars[i..j])
    ensures Synced(RemoveEach(h.(chars := h.chars[..i] + h.chars[j..]), h.chars[i..j]))
  {
    var removed, kept := h.chars[i..j], h.chars[..i] + h.chars[j..];
    SliceOut(h.chars, i, j);
    SyncedParented(h, removed);
    var h1 := h.(chars := kept);
    CharsSpliced(h, kept);
    assert Parented(h1, removed);
    RemoveEachFlatten(h1, removed);
    MinusSlice(h.chars, i, j);
    MinusDistinct(h.chars, Elems(removed));
    SyncedAfterRemoval(h1, removed, RemoveEach(h1, removed));
  }

  lemma {:induction false} SyncedAfterRemoval(h1: Heap, removed: seq<CharId>, r: Heap)
    requires WellFormed(h1) && Parented(h1, removed) && r == RemoveEach(h1, removed)
    requires WellFormed(r) && ParentsAgree(r) && Flatten(r) == Minus(Flatten(h1), Elems(removed))
    requires h1.chars == Minus(Flatten(h1), Elems(removed)) && Distinct(h1.chars)
    ensures Synced(r)
  {
  }

  // ---------------------------------------------------------------------------------
  // execAction and new Document()

  /** `execAction` always finds a word behind each char it scans in a well-formed store. */
  lemma {:induction false} ExecActionDefined(h: Heap, start: int, end: int)
    requires WellFormed(h)
    ensures CanExecAction(h, start, end)
  {
    if 0 <= start < |h.chars| {
      var stop := Stop(|h.chars|, start, end);
      var ps := ParentsIn(h, start, stop);
      HeadsIn(ps);
      forall v: WordId | v in Heads(ps) ensures v in h.wordChars && forall c: CharId :: c in h.wordChars[v] ==> c in h.charValue {
        var j :| 0 <= j < |ps| && ps[j] == Some(v);
        assert ParentOf(h, Some(h.chars[start + j])) == Some(v);
      }
    }
  }

  /** `execAction` changes only the values of chars, so `chars` and the tree stay in step. */
  lemma {:induction false} ExecActionSynced(h: Heap, action: string, start: int, end: int)
    requires Synced(h)
    ensures CanExecAction(h, start, end) && Synced(ExecActionEffect(h, action, start, end))
  {
    ExecActionDefined(h, start, end);
    var r := ExecActionEffect(h, action, start, end);
    assert r.(charValue := h.charValue) == h && r.charValue.Keys == h.charValue.Keys;
    assert WellFormed(r);
    assert Flatten(r) == Flatten(h);
  }

  /** `new Document()` (document.js:11-17) starts in step: its one char is its tree's one char. */
  lemma {:induction false} EmptyDocumentSynced()
    ensures Synced(EmptyDocument())
  {
    EmptyDocumentFacts();
  }
}
