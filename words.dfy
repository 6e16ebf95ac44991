/**
 * What `Word.prototype.split` (src/js/word.js:74-159) does to the object store, built from
 * the steps the code takes: the kept run replaces the word's chars, a new word adopts every
 * other run, the same-block words are chained in after the word, and, when the word held a
 * newline, the block is cut after the word, one new block per newline is inserted after it,
 * and the cut-off words are appended to the last new block.
 */
module Words {
  import opened Wrappers
  import opened Util
  import opened Seqs
  import opened WordScan
  import opened Chars
  import opened Tree

  /** How the scan sorts the chars of w. */
  function PlanIn(h: Heap, w: WordId): Plan<CharId>
    requires w in h.wordChars
  {
    PlanOf(h.wordChars[w], KindIn(h.charValue))
  }

  /** Every word of ws holds chars the scan leaves as they are. */
  ghost predicate AllNormal(h: Heap, ws: seq<WordId>)
  {
    forall v: WordId :: v in ws ==> v in h.wordChars && Normal(h.wordChars[v], KindIn(h.charValue))
  }

  /** Map the ids m, m+1, ... to vs[0], vs[1], ... in turn. */
  function Fill<V>(mp: map<nat, V>, m: nat, vs: seq<V>): map<nat, V>
    decreases |vs|
  {
    if vs == [] then mp else Fill(mp, m, vs[..|vs| - 1])[m + |vs| - 1 := vs[|vs| - 1]]
  }

  /** Each element of the list ls[j] gets Some(m + j) as its parent. */
  function AdoptAll<K>(pm: map<K, Option<nat>>, m: nat, ls: seq<seq<K>>): map<K, Option<nat>>
    decreases |ls|
  {
    if ls == [] then pm else SetAll(AdoptAll(pm, m, ls[..|ls| - 1]), ls[|ls| - 1], Option<nat>.Some(m + |ls| - 1))
  }

  /** `new Word(currentChars)` for each run in turn (word.js:94, 96, 122, 124). */
  function WithWords(h: Heap, runs: seq<seq<CharId>>): Heap
  {
    h.(wordChars := Fill(h.wordChars, h.next, runs),
       wordParent := NewParents(h.wordParent, h.next, |runs|, None),
       charParent := AdoptAll(h.charParent, h.next, runs),
       next := h.next + |runs|)
  }

  /** Insert ids one by one, the first right after w and each next one right after the one before. */
  function Chain<T(==)>(s: seq<T>, w: T, ids: seq<T>): (r: seq<T>)
    ensures |r| == |s| + |ids|
    decreases |ids|
  {
    if ids == [] then s
    else InsertAfter(Chain(s, w, ids[..|ids| - 1]), Some(if |ids| == 1 then w else ids[|ids| - 2]), [ids[|ids| - 1]])
  }

  /** `prevWord.parent.insertAfter(prevWord, word)` for each same-block word (word.js:134-140). */
  function Chained(h: Heap, b: BlockId, w: WordId, ids: seq<WordId>): Heap
    requires b in h.blockWords
  {
    h.(wordParent := SetAll(h.wordParent, ids, Some(b)),
       blockWords := h.blockWords[b := Chain(h.blockWords[b], w, ids)])
  }

  /**
   * `new Block(words)` and `prevBlock.parent.insertAfter(prevBlock, block)` for each group in
   * turn, the first after b (word.js:143-152).
   */
  function WithBlocks(h: Heap, b: BlockId, groups: seq<seq<WordId>>): Heap
  {
    h.(blockWords := Fill(h.blockWords, h.next, groups),
       blockAttached := NewParents(h.blockAttached, h.next, |groups|, true),
       wordParent := AdoptAll(h.wordParent, h.next, groups),
       blocks := Chain(h.blocks, b, Ids(h.next, |groups|)),
       next := h.next + |groups|)
  }

  /** `prevBlock.insertAfter(null, word)` for each sibling word (word.js:155-157). */
  function Appended(h: Heap, b: BlockId, ws: seq<WordId>): Heap
    requires b in h.blockWords
  {
    h.(wordParent := SetAll(h.wordParent, ws, Some(b)),
       blockWords := h.blockWords[b := h.blockWords[b] + ws])
  }

  /** The ids the words of each group get, given that they are made in order from id m on. */
  function IdGroups(m: nat, gs: seq<seq<seq<CharId>>>): (r: seq<seq<WordId>>)
    ensures |r| == |gs| && forall k :: 0 <= k < |gs| ==> |r[k]| == |gs[k]|
    decreases |gs|
  {
    if gs == [] then [] else [Ids(m, |gs[0]|)] + IdGroups(m + |gs[0]|, gs[1..])
  }

  /**
   * What `split` needs of the store: a word whose split does something has a parent block
   * (`prevWord.parent.insertAfter`, word.js:137), and one that makes new blocks has a block
   * that is attached to the document (`prevBlock.parent.insertAfter`, word.js:150).
   */
  ghost predicate CanSplit(h: Heap, w: WordId)
  {
    && w in h.wordChars
    && (PlanIn(h, w).Split? ==>
          && w in h.wordParent && h.wordParent[w].Some?
          && h.wordParent[w].value in h.blockWords && h.wordParent[w].value in h.blockAttached)
    && (PlanIn(h, w).Split? && PlanIn(h, w).groups != [] ==> h.blockAttached[h.wordParent[w].value])
  }

  /**
   * The words that end up after w when the split makes new blocks are re-inserted with
   * `prevBlock.insertAfter(null, word)` (word.js:155-157), which splits each of them again.
   * The model asks that the words after w in its block are normal already, so that those
   * inner splits do nothing, and that the store is well formed, so that the ids the split
   * hands out are fresh.
   */
  ghost predicate SiblingsNormal(h: Heap, w: WordId)
    requires CanSplit(h, w)
  {
    PlanIn(h, w).Split? && PlanIn(h, w).groups != [] ==>
      var b := h.wordParent[w].value;
      && WellFormed(h)
      && forall v: WordId :: v in CutAfter(h.blockWords[b], w).1 && v != w ==> v in h.wordChars && Normal(h.wordChars[v], KindIn(h.charValue))
  }

  /** What a call of `word.split()` needs in this model. */
  ghost predicate SplitOK(h: Heap, w: WordId)
  {
    CanSplit(h, w) && SiblingsNormal(h, w)
  }

  /**
   * The first half of `split` (word.js:117, 94-96 and 134-140): the word keeps its first run,
   * a new word is made for every other run, and the same-block words are chained in after it.
   */
  function SplitRuns(h: Heap, w: WordId): Heap
    requires CanSplit(h, w) && PlanIn(h, w).Split?
  {
    var p := PlanIn(h, w);
    var h1 := WithWords(h.(wordChars := h.wordChars[w := p.first]), NewRuns(p));
    Chained(h1, h.wordParent[w].value, w, Ids(h.next, |p.same|))
  }

  /**
   * The second half (word.js:143-158): the words after w are cut off, a block is made for
   * each group of word ids gs and chained in after b, and the cut-off words go to the last one.
   */
  function Regroup(h: Heap, b: BlockId, w: WordId, gs: seq<seq<WordId>>): Heap
    requires b in h.blockWords && gs != []
  {
    var h3 := WordsCut(h, b, w);
    Appended(WithBlocks(h3, b, gs), LastBlock(h3, b, gs), CutAfter(h.blockWords[b], w).1)
  }

  /** The block made last when a block is made for each of gs in turn after b: b itself if none is. */
  function LastBlock(h: Heap, b: BlockId, gs: seq<seq<WordId>>): BlockId
  {
    if gs == [] then b else h.next + |gs| - 1
  }

  /** The second half, which runs only when the scan made groups for new blocks (word.js:143). */
  function SplitTail(h: Heap, b: BlockId, w: WordId, gs: seq<seq<WordId>>): Heap
    requires b in h.blockWords
  {
    if gs == [] then h else Regroup(h, b, w, gs)
  }

  /** The ids of the words in each group of new blocks, made after the same-block words. */
  function SplitGroups(h: Heap, w: WordId): seq<seq<WordId>>
    requires w in h.wordChars && PlanIn(h, w).Split?
  {
    IdGroups(h.next + |PlanIn(h, w).same|, PlanIn(h, w).groups)
  }

  /** The whole of `split`, step by step as word.js:74-159 takes them. */
  function SplitEffect(h: Heap, w: WordId): Heap
    requires CanSplit(h, w)
  {
    if PlanIn(h, w).NoSplit? then h else SplitTail(SplitRuns(h, w), h.wordParent[w].value, w, SplitGroups(h, w))
  }

  /**
   * What the second half of `split` needs: the block exists, every group of new words is
   * non-empty, and the words after w are normal, so their re-insertion splits nothing.
   */
  ghost predicate CanRegroup(h: Heap, b: BlockId, w: WordId, gs: seq<seq<WordId>>)
  {
    && b in h.blockWords && gs != []
    && (forall g: seq<WordId> :: g in gs ==> g != [])
    && AllNormal(h, CutAfter(h.blockWords[b], w).1)
  }

  /** A split that does something is its two halves in turn. */
  lemma {:induction false} SplitHalves(h: Heap, w: WordId)
    requires CanSplit(h, w) && PlanIn(h, w).Split?
    ensures SplitEffect(h, w) == SplitTail(SplitRuns(h, w), h.wordParent[w].value, w, SplitGroups(h, w))
  {
    SplitRunsKeepsBlock(h, w);
  }

  /** No split changes the value of a char or the document's tail. */
  lemma {:induction false} SplitValues(h: Heap, w: WordId)
    requires CanSplit(h, w)
    ensures SplitEffect(h, w).charValue == h.charValue && SplitEffect(h, w).tail == h.tail
  {
    if PlanIn(h, w).Split? {
      SplitHalves(h, w);
    }
  }

  lemma {:induction false} SplitRunsKeepsBlock(h: Heap, w: WordId)
    requires CanSplit(h, w) && PlanIn(h, w).Split?
    ensures h.wordParent[w].value in SplitRuns(h, w).blockWords
  {
  }

  /** With no groups the second half does nothing. */
  lemma {:induction false} SplitTailNone(h: Heap, b: BlockId, w: WordId)
    requires b in h.blockWords
    ensures SplitTail(h, b, w, []) == h
  {
  }

  /** Once the first half is done, the second can run. */
  lemma {:induction false} RegroupReady(h: Heap, w: WordId, p: Plan<CharId>, h2: Heap, b: BlockId, gs: seq<seq<WordId>>)
    requires SplitOK(h, w) && p == PlanIn(h, w) && p.Split? && p.groups != []
    requires h2 == SplitRuns(h, w) && b == h.wordParent[w].value && gs == SplitGroups(h, w)
    ensures CanRegroup(h2, b, w, gs) && SplitTail(h2, b, w, gs) == Regroup(h2, b, w, gs)
  {
    SiblingsStayNormal(h, w, h2, b);
    GroupsNonEmpty(h, w, p, gs);
    RegroupFits(h2, b, w, gs);
  }

  /** The ids handed to the new blocks make non-empty groups, one per group of runs. */
  lemma {:induction false} GroupsNonEmpty(h: Heap, w: WordId, p: Plan<CharId>, gs: seq<seq<WordId>>)
    requires w in h.wordChars && p == PlanIn(h, w) && p.Split? && p.groups != [] && gs == SplitGroups(h, w)
    ensures gs != [] && forall g: seq<WordId> :: g in gs ==> g != []
  {
    PlanIsGood(h.wordChars[w], KindIn(h.charValue));
    IdGroupsNonEmpty(h.next + |p.same|, p.groups);
  }

  /** With the block there, the groups non-empty and the words after w normal, the second half runs. */
  lemma {:induction false} RegroupFits(h2: Heap, b: BlockId, w: WordId, gs: seq<seq<WordId>>)
    requires b in h2.blockWords && AllNormal(h2, CutAfter(h2.blockWords[b], w).1)
    requires gs != [] && forall g: seq<WordId> :: g in gs ==> g != []
    ensures CanRegroup(h2, b, w, gs) && SplitTail(h2, b, w, gs) == Regroup(h2, b, w, gs)
  {
  }

  lemma {:induction false} ChainedNone(h: Heap, b: BlockId, w: WordId)
    requires b in h.blockWords
    ensures Chained(h, b, w, []) == h
  {
    assert h.blockWords[b := h.blockWords[b]] == h.blockWords;
  }

  lemma {:induction false} WithBlocksNone(h: Heap, b: BlockId)
    ensures WithBlocks(h, b, []) == h
  {
    assert Ids(h.next, 0) == [];
    assert NewParents(h.blockAttached, h.next, 0, true) == h.blockAttached;
  }

  lemma {:induction false} AppendedNone(h: Heap, b: BlockId)
    requires b in h.blockWords
    ensures Appended(h, b, []) == h
  {
    assert h.blockWords[b] + [] == h.blockWords[b];
    assert h.blockWords[b := h.blockWords[b]] == h.blockWords;
  }

  /** A word with no separator before its last char is left as it is (word.js:111-114). */
  lemma {:induction false} SplitNoop(h: Heap, v: WordId)
    requires v in h.wordChars && Normal(h.wordChars[v], KindIn(h.charValue))
    ensures PlanIn(h, v).NoSplit? && SplitOK(h, v) && SplitEffect(h, v) == h
  {
    NormalIsNoSplit(h.wordChars[v], KindIn(h.charValue));
  }

  /** Chaining only adds the ids. */
  lemma {:induction false} ChainElems<T>(s: seq<T>, w: T, ids: seq<T>)
    ensures forall x :: x in Chain(s, w, ids) ==> x in s || x in ids
    decreases |ids|
  {
    if ids != [] {
      var init := ids[..|ids| - 1];
      ChainElems(s, w, init);
      var prev := Chain(s, w, init);
      InsertAfterElems(prev, Some(if |ids| == 1 then w else ids[|ids| - 2]), [ids[|ids| - 1]]);
      forall x | x in Chain(s, w, ids) ensures x in s || x in ids {
        assert x in multiset(Chain(s, w, ids));
        assert x in prev || x == ids[|ids| - 1];
        if x in init {
          assert x in ids;
        }
      }
    }
  }

  /** Fill puts vs[j] at m + j and leaves every other key alone. */
  lemma {:induction false} FillAt<V>(mp: map<nat, V>, m: nat, vs: seq<V>)
    ensures forall k :: k in Fill(mp, m, vs) <==> k in mp || m <= k < m + |vs|
    ensures forall j :: 0 <= j < |vs| ==> Fill(mp, m, vs)[m + j] == vs[j]
    ensures forall k :: k in mp && !(m <= k < m + |vs|) ==> Fill(mp, m, vs)[k] == mp[k]
    decreases |vs|
  {
    if vs != [] {
      FillAt(mp, m, vs[..|vs| - 1]);
    }
  }

  /** Every word the split makes from a run holds a normal run (word.js:94, 96, 122, 124). */
  lemma {:induction false} NewWordsNormal(h: Heap, w: WordId, h1: Heap, ids: seq<WordId>)
    requires w in h.wordChars && PlanIn(h, w).Split?
    requires h1 == WithWords(h.(wordChars := h.wordChars[w := PlanIn(h, w).first]), NewRuns(PlanIn(h, w)))
    requires ids == Ids(h.next, |PlanIn(h, w).same|)
    ensures AllNormal(h1, ids)
  {
    var p := PlanIn(h, w);
    var runs := NewRuns(p);
    PlanIsGood(h.wordChars[w], KindIn(h.charValue));
    FillAt(h.wordChars[w := p.first], h.next, runs);
    forall v: WordId | v in ids ensures v in h1.wordChars && Normal(h1.wordChars[v], KindIn(h1.charValue)) {
      var j := v - h.next;
      assert 0 <= j < |p.same| && ids[j] == v;
      assert runs[j] == p.same[j];
      assert runs[j] in runs;
    }
  }

  /**
   * The words that end up after w once the same-block words are chained in are normal: each
   * is a new word holding a run, w itself holding its kept run, or a word that was after w.
   */
  lemma {:induction false} SiblingsStayNormal(h: Heap, w: WordId, h2: Heap, b: BlockId)
    requires SplitOK(h, w) && PlanIn(h, w).Split? && PlanIn(h, w).groups != []
    requires h2 == SplitRuns(h, w) && b == h.wordParent[w].value
    ensures b in h2.blockWords && AllNormal(h2, CutAfter(h2.blockWords[b], w).1)
  {
    var p, s := PlanIn(h, w), h.blockWords[b];
    PlanIsGood(h.wordChars[w], KindIn(h.charValue));
    var ids := Ids(h.next, |p.same|);
    SiblingsNormalAt(h, w, b);
    ChainedNormal(h.wordChars, w, p.first, h.next, NewRuns(p), s, ids, KindIn(h.charValue));
    SplitRunsParts(h, w);
  }

  /** What SiblingsNormal says of the block b of w when the split makes new blocks. */
  lemma {:induction false} SiblingsNormalAt(h: Heap, w: WordId, b: BlockId)
    requires SplitOK(h, w) && PlanIn(h, w).Split? && PlanIn(h, w).groups != [] && b == h.wordParent[w].value
    ensures WellFormed(h) && b in h.blockWords && forall v: WordId :: v in h.blockWords[b] ==> v < h.next
    ensures forall v: WordId :: v in CutAfter(h.blockWords[b], w).1 && v != w ==> v in h.wordChars && Normal(h.wordChars[v], KindIn(h.charValue))
  {
    assert SiblingsNormal(h, w);
    assert b in h.blockWords && Bounded(h) && ChildrenStored(h);
    forall v: WordId | v in h.blockWords[b] ensures v < h.next {
      assert v in h.wordChars;
    }
  }

  /** The first half of the split chains the same-block words in after w and fills in the runs; no char changes. */
  lemma {:induction false} SplitRunsParts(h: Heap, w: WordId)
    requires CanSplit(h, w) && PlanIn(h, w).Split?
    ensures var p, b, h2 := PlanIn(h, w), h.wordParent[w].value, SplitRuns(h, w);
      && b in h2.blockWords && h2.blockWords[b] == Chain(h.blockWords[b], w, Ids(h.next, |p.same|))
      && h2.wordChars == Fill(h.wordChars[w := p.first], h.next, NewRuns(p)) && h2.charValue == h.charValue
  {
  }

  /** Every word after w in the chained list holds a normal run once the runs are filled in. */
  lemma {:induction false} ChainedNormal(wc: map<WordId, seq<CharId>>, w: WordId, first: seq<CharId>, n: nat, runs: seq<seq<CharId>>,
                      s: seq<WordId>, ids: seq<WordId>, kind: CharId -> Kind)
    requires Normal(first, kind) && w < n
    requires forall r: seq<CharId> :: r in runs ==> Normal(r, kind)
    requires forall v: WordId :: v in s ==> v < n
    requires forall v: WordId :: v in CutAfter(s, w).1 && v != w ==> v in wc && Normal(wc[v], kind)
    requires ids == Ids(n, |ids|) && |ids| <= |runs|
    ensures var wc2 := Fill(wc[w := first], n, runs);
      forall v: WordId :: v in CutAfter(Chain(s, w, ids), w).1 ==> v in wc2 && Normal(wc2[v], kind)
  {
    var wc1 := wc[w := first];
    var wc2 := Fill(wc1, n, runs);
    IdsDistinct(n, |ids|);
    forall e: WordId | e in ids ensures e !in s && e != w {
      assert e >= n;
    }
    ChainCut(s, w, ids);
    forall v: WordId | v in CutAfter(Chain(s, w, ids), w).1 ensures v in wc2 && Normal(wc2[v], kind) {
      if v in ids {
        FilledRun(wc1, n, runs, v - n);
        assert runs[v - n] in runs;
      } else {
        var cut := CutAfter(s, w);
        assert v in cut.1;
        assert v < n by { assert v in cut.0 + cut.1; }
        if v != w {
          assert v in wc && Normal(wc[v], kind);
        }
        FillBelow(wc1, n, runs, v);
      }
    }
  }

  /** Fill puts vs[j] at m + j. */
  lemma {:induction false} FilledRun<V>(mp: map<nat, V>, m: nat, vs: seq<V>, j: nat)
    requires j < |vs|
    ensures m + j in Fill(mp, m, vs) && Fill(mp, m, vs)[m + j] == vs[j]
  {
    FillAt(mp, m, vs);
  }

  /** Fill leaves the keys below m alone. */
  lemma {:induction false} FillBelow<V>(mp: map<nat, V>, m: nat, vs: seq<V>, k: nat)
    requires k in mp && k < m
    ensures k in Fill(mp, m, vs) && Fill(mp, m, vs)[k] == mp[k]
  {
    FillAt(mp, m, vs);
  }

  /** Once fresh ids are chained in behind w, the words after w are those ids and the words that were after w. */
  lemma {:induction false} ChainCut(s: seq<WordId>, w: WordId, ids: seq<WordId>)
    requires forall e: WordId :: e in ids ==> e !in s && e != w
    requires Distinct(ids)
    ensures forall v: WordId :: v in CutAfter(Chain(s, w, ids), w).1 ==> v in ids || v in CutAfter(s, w).1
  {
    ChainIsInsert(s, w, ids);
    if w in s {
      CutAfterInserted(s, w, ids);
      var i := IndexOf(s, w);
      assert s[i + 1..] == CutAfter(s, w).1;
    } else {
      assert InsertAfter(s, Some(w), ids) == s + ids;
      assert w !in s + ids;
    }
  }

  /** The groups of ids handed to the new blocks are non-empty when the groups of runs are. */
  lemma {:induction false} IdGroupsNonEmpty(m: nat, gs: seq<seq<seq<CharId>>>)
    requires forall g: seq<seq<CharId>> :: g in gs ==> g != []
    ensures forall g: seq<WordId> :: g in IdGroups(m, gs) ==> g != []
  {
    var r := IdGroups(m, gs);
    forall g: seq<WordId> | g in r ensures g != [] {
      var k :| 0 <= k < |r| && r[k] == g;
      assert gs[k] in gs;
    }
  }

  // ---------------------------------------------------------------------------------
  // One turn of each loop of `split` is one more step of its fold.

  lemma {:induction false} WithWordsStep(h: Heap, runs: seq<seq<CharId>>, run: seq<CharId>)
    ensures AddWord(WithWords(h, runs), Adopt(run), None) == WithWords(h, runs + [run])
  {
    var r, t := AddWord(WithWords(h, runs), Adopt(run), None), WithWords(h, runs + [run]);
    assert r.wordChars == t.wordChars by { FillSnoc(h.wordChars, h.next, runs, run, h.next + |runs|); }
    assert r.wordParent == t.wordParent by { NewParentsSnoc(h.wordParent, h.next, |runs|, None); }
    assert r.charParent == t.charParent by { AdoptAllSnoc(h.charParent, h.next, runs, run); }
    HeapEq(r, t);
  }

  lemma {:induction false} FillSnoc<V>(mp: map<nat, V>, m: nat, vs: seq<V>, x: V, k: nat)
    requires k == m + |vs|
    ensures Fill(mp, m, vs + [x]) == Fill(mp, m, vs)[k := x]
  {
    var t := vs + [x];
    assert t[..|t| - 1] == vs;
  }

  lemma {:induction false} AdoptAllSnoc<K>(pm: map<K, Option<nat>>, m: nat, ls: seq<seq<K>>, l: seq<K>)
    ensures AdoptAll(pm, m, ls + [l]) == SetAll(AdoptAll(pm, m, ls), l, Option<nat>.Some(m + |ls|))
  {
    var t := ls + [l];
    assert t[..|t| - 1] == ls;
  }

  lemma {:induction false} NewParentsSnoc<V>(pm: map<nat, V>, m: nat, k: nat, p: V)
    ensures NewParents(pm, m, k + 1, p) == NewParents(pm, m, k, p)[m + k := p]
  {
  }

  lemma {:induction false} AttachedStep(ba: map<nat, bool>, m: nat, k: nat)
    ensures NewParents(ba, m, k, true)[m + k := false][m + k := true] == NewParents(ba, m, k + 1, true)
  {
    NewParentsSnoc(ba, m, k, true);
  }

  lemma {:induction false} ChainSnoc<T>(s: seq<T>, w: T, ids: seq<T>, x: T)
    ensures Chain(s, w, ids + [x]) == InsertAfter(Chain(s, w, ids), Some(if ids == [] then w else ids[|ids| - 1]), [x])
  {
    var t := ids + [x];
    assert t[..|t| - 1] == ids;
  }

  /** Fresh ids inserted one after the other behind w are one splice of all of them behind w. */
  lemma {:induction false} ChainIsInsert<T>(s: seq<T>, w: T, ids: seq<T>)
    requires forall e :: e in ids ==> e !in s && e != w
    requires Distinct(ids)
    ensures Chain(s, w, ids) == InsertAfter(s, Some(w), ids)
    decreases |ids|
  {
    if ids == [] {
      assert InsertAfter(s, Some(w), ids) == s;
    } else {
      var init, y := ids[..|ids| - 1], ids[|ids| - 1];
      assert ids == init + [y];
      ChainIsInsert(s, w, init);
      ChainSnoc(s, w, init, y);
      InsertChainStep(s, w, init, y);
    }
  }

  /** One turn of the loop at word.js:134-140: the next same-block word goes in after the one before. */
  lemma {:induction false} ChainedStep(h: Heap, b: BlockId, w: WordId, ids: seq<WordId>, prev: WordId, v: WordId)
    requires b in h.blockWords
    requires prev == if ids == [] then w else ids[|ids| - 1]
    ensures b in Chained(h, b, w, ids).blockWords
    ensures SplicedAfter(Chained(h, b, w, ids), b, Some(prev), v) == Chained(h, b, w, ids + [v])
  {
    ChainedStepParents(h, b, w, ids, prev, v);
    ChainedStepWords(h, b, w, ids, prev, v);
    HeapEq(SplicedAfter(Chained(h, b, w, ids), b, Some(prev), v), Chained(h, b, w, ids + [v]));
  }

  lemma {:induction false} ChainedStepParents(h: Heap, b: BlockId, w: WordId, ids: seq<WordId>, prev: WordId, v: WordId)
    requires b in h.blockWords
    ensures SplicedAfter(Chained(h, b, w, ids), b, Some(prev), v).wordParent == Chained(h, b, w, ids + [v]).wordParent
  {
    SetAllSnoc(h.wordParent, ids, v, Some(b));
  }

  lemma {:induction false} ChainedStepWords(h: Heap, b: BlockId, w: WordId, ids: seq<WordId>, prev: WordId, v: WordId)
    requires b in h.blockWords
    requires prev == if ids == [] then w else ids[|ids| - 1]
    ensures SplicedAfter(Chained(h, b, w, ids), b, Some(prev), v).blockWords == Chained(h, b, w, ids + [v]).blockWords
  {
    ChainSnoc(h.blockWords[b], w, ids, v);
  }

  /**
   * One turn of the loop at word.js:143-152: the block of group g is made and inserted after
   * the block before it.
   */
  lemma {:induction false} WithBlocksStep(h: Heap, b: BlockId, gs: seq<seq<WordId>>, g: seq<WordId>, prev: BlockId, nb: BlockId)
    requires g != []
    requires prev == LastBlock(h, b, gs) && nb == h.next + |gs|
    ensures BlockInserted(AddWordsBlock(WithBlocks(h, b, gs), g, false), Some(prev), nb) == WithBlocks(h, b, gs + [g])
  {
    WithBlocksStepMaps(h, b, gs, g, prev, nb);
    WithBlocksStepList(h, b, gs, g, prev, nb);
    HeapEq(BlockInserted(AddWordsBlock(WithBlocks(h, b, gs), g, false), Some(prev), nb), WithBlocks(h, b, gs + [g]));
  }

  lemma {:induction false} WithBlocksStepMaps(h: Heap, b: BlockId, gs: seq<seq<WordId>>, g: seq<WordId>, prev: BlockId, nb: BlockId)
    requires g != []
    requires nb == h.next + |gs|
    ensures var r, t := BlockInserted(AddWordsBlock(WithBlocks(h, b, gs), g, false), Some(prev), nb), WithBlocks(h, b, gs + [g]);
      r.blockWords == t.blockWords && r.wordParent == t.wordParent && r.blockAttached == t.blockAttached
  {
    StepBlockWords(h, b, gs, g, prev, nb);
    StepWordParent(h, b, gs, g, prev, nb);
    StepAttached(h, b, gs, g, prev, nb);
  }

  lemma {:induction false} StepBlockWords(h: Heap, b: BlockId, gs: seq<seq<WordId>>, g: seq<WordId>, prev: BlockId, nb: BlockId)
    requires g != []
    requires nb == h.next + |gs|
    ensures BlockInserted(AddWordsBlock(WithBlocks(h, b, gs), g, false), Some(prev), nb).blockWords
         == WithBlocks(h, b, gs + [g]).blockWords
  {
    FillSnoc(h.blockWords, h.next, gs, g, nb);
  }

  lemma {:induction false} StepWordParent(h: Heap, b: BlockId, gs: seq<seq<WordId>>, g: seq<WordId>, prev: BlockId, nb: BlockId)
    requires g != []
    requires nb == h.next + |gs|
    ensures BlockInserted(AddWordsBlock(WithBlocks(h, b, gs), g, false), Some(prev), nb).wordParent
         == WithBlocks(h, b, gs + [g]).wordParent
  {
    AdoptAllSnoc(h.wordParent, h.next, gs, g);
  }

  lemma {:induction false} StepAttached(h: Heap, b: BlockId, gs: seq<seq<WordId>>, g: seq<WordId>, prev: BlockId, nb: BlockId)
    requires g != []
    requires nb == h.next + |gs|
    ensures BlockInserted(AddWordsBlock(WithBlocks(h, b, gs), g, false), Some(prev), nb).blockAttached
         == WithBlocks(h, b, gs + [g]).blockAttached
  {
    var h1 := WithBlocks(h, b, gs);
    WithBlocksAttached(h, b, gs);
    var h2 := AddWordsBlock(h1, g, false);
    AttachedSplice(h1, g, Some(prev));
    WithBlocksAttached(h, b, gs + [g]);
    AttachedStep(h.blockAttached, h.next, |gs|);
  }

  lemma {:induction false} AttachedSplice(h: Heap, g: seq<WordId>, ref: Option<BlockId>)
    ensures BlockInserted(AddWordsBlock(h, g, false), ref, h.next).blockAttached == h.blockAttached[h.next := false][h.next := true]
  {
  }

  lemma {:induction false} WithBlocksAttached(h: Heap, b: BlockId, gs: seq<seq<WordId>>)
    ensures WithBlocks(h, b, gs).blockAttached == NewParents(h.blockAttached, h.next, |gs|, true)
    ensures WithBlocks(h, b, gs).next == h.next + |gs|
  {
  }

  lemma {:induction false} WithBlocksStepList(h: Heap, b: BlockId, gs: seq<seq<WordId>>, g: seq<WordId>, prev: BlockId, nb: BlockId)
    requires g != []
    requires prev == LastBlock(h, b, gs) && nb == h.next + |gs|
    ensures var r, t := BlockInserted(AddWordsBlock(WithBlocks(h, b, gs), g, false), Some(prev), nb), WithBlocks(h, b, gs + [g]);
      r.blocks == t.blocks && r.next == t.next && r.chars == t.chars && r.tail == t.tail
      && r.wordChars == t.wordChars && r.charValue == t.charValue && r.charParent == t.charParent
  {
    assert |gs + [g]| == |gs| + 1;
    BlocksChainStep(h.blocks, b, h.next, |gs|, prev, nb);
  }

  lemma {:induction false} BlocksChainStep(bs: seq<BlockId>, b: BlockId, m: nat, k: nat, prev: BlockId, nb: BlockId)
    requires prev == if k == 0 then b else m + k - 1
    requires nb == m + k
    ensures InsertAfter(Chain(bs, b, Ids(m, k)), Some(prev), [nb]) == Chain(bs, b, Ids(m, k + 1))
  {
    var ids := Ids(m, k);
    assert Ids(m, k + 1) == ids + [nb];
    ChainSnoc(bs, b, ids, nb);
    assert prev == if ids == [] then b else ids[|ids| - 1];
  }

  lemma {:induction false} AppendedStep(h: Heap, b: BlockId, ws: seq<WordId>, v: WordId)
    requires b in h.blockWords
    ensures b in Appended(h, b, ws).blockWords
    ensures SplicedAfter(Appended(h, b, ws), b, None, v) == Appended(h, b, ws + [v])
  {
    var r, t := SplicedAfter(Appended(h, b, ws), b, None, v), Appended(h, b, ws + [v]);
    SetAllSnoc(h.wordParent, ws, v, Some(b));
    assert h.blockWords[b] + (ws + [v]) == h.blockWords[b] + ws + [v];
    HeapEq(r, t);
  }

  // ---------------------------------------------------------------------------------
  // toggleProp (word.js:42-66)

  /** The first loop: `char.props[prop] = true` for each char that has it falsy, in turn (word.js:49-54). */
  function SetOn(cv: map<CharId, Char>, cs: seq<CharId>, prop: string): (r: map<CharId, Char>)
    requires forall c: CharId :: c in cs ==> c in cv
    ensures r.Keys == cv.Keys
    decreases |cs|
  {
    if cs == [] then cv
    else
      var m := SetOn(cv, cs[..|cs| - 1], prop);
      var c := cs[|cs| - 1];
      if IsOn(m[c].props, prop) then m else m[c := m[c].(props := Set(m[c].props, prop, true))]
  }

  /** The second loop: `char.props[prop] = false` for each char (word.js:62-64). */
  function SetOff(cv: map<CharId, Char>, cs: seq<CharId>, prop: string): (r: map<CharId, Char>)
    requires forall c: CharId :: c in cs ==> c in cv
    ensures r.Keys == cv.Keys
    decreases |cs|
  {
    if cs == [] then cv
    else
      var m := SetOff(cv, cs[..|cs| - 1], prop);
      var c := cs[|cs| - 1];
      m[c := m[c].(props := Set(m[c].props, prop, false))]
  }

  /** Some char of cs has prop falsy: what `setTrue` ends up as. */
  predicate AnyOff(cv: map<CharId, Char>, cs: seq<CharId>, prop: string)
    requires forall c: CharId :: c in cs ==> c in cv
  {
    exists c :: c in cs && !IsOn(cv[c].props, prop)
  }

  /** `word.toggleProp(prop)`: the first loop, then the second one unless it set anything. */
  function ToggleEffect(h: Heap, w: WordId, prop: string): Heap
    requires w in h.wordChars && forall c: CharId :: c in h.wordChars[w] ==> c in h.charValue
  {
    var cs := h.wordChars[w];
    var on := SetOn(h.charValue, cs, prop);
    h.(charValue := if AnyOff(h.charValue, cs, prop) then on else SetOff(on, cs, prop))
  }

  /** One turn of the first loop (word.js:50-53). */
  lemma {:induction false} SetOnSnoc(cv: map<CharId, Char>, cs: seq<CharId>, c: CharId, prop: string)
    requires forall x: nat :: x in cs + [c] ==> x in cv
    ensures var m := SetOn(cv, cs, prop);
      SetOn(cv, cs + [c], prop) == if IsOn(m[c].props, prop) then m else m[c := m[c].(props := Set(m[c].props, prop, true))]
  {
    var t := cs + [c];
    assert t[..|t| - 1] == cs;
  }

  /** One turn of the second loop (word.js:63). */
  lemma {:induction false} SetOffSnoc(cv: map<CharId, Char>, cs: seq<CharId>, c: CharId, prop: string)
    requires forall x: nat :: x in cs + [c] ==> x in cv
    ensures var m := SetOff(cv, cs, prop);
      SetOff(cv, cs + [c], prop) == m[c := m[c].(props := Set(m[c].props, prop, false))]
  {
    var t := cs + [c];
    assert t[..|t| - 1] == cs;
  }

  /** After the first loop over cs every char of cs has prop on, and every other char is as it was. */
  lemma {:induction false} SetOnAt(cv: map<CharId, Char>, cs: seq<CharId>, prop: string)
    requires forall c: CharId :: c in cs ==> c in cv
    ensures forall c: CharId :: c in cs ==> IsOn(SetOn(cv, cs, prop)[c].props, prop)
    ensures forall c: CharId :: c in cv && c !in cs ==> SetOn(cv, cs, prop)[c] == cv[c]
    decreases |cs|
  {
    if cs != [] {
      var init, x := cs[..|cs| - 1], cs[|cs| - 1];
      SetOnAt(cv, init, prop);
      assert cs == init + [x];
      forall c: CharId | c in cs ensures IsOn(SetOn(cv, cs, prop)[c].props, prop) {
        if c != x {
          assert c in init;
        }
      }
    }
  }

  /** `setTrue` after one more turn: it becomes true exactly when the char had prop off before the loop. */
  lemma {:induction false} AnyOffSnoc(cv: map<CharId, Char>, cs: seq<CharId>, c: CharId, prop: string)
    requires forall x: nat :: x in cs + [c] ==> x in cv
    ensures AnyOff(cv, cs + [c], prop) == (AnyOff(cv, cs, prop) || !IsOn(SetOn(cv, cs, prop)[c].props, prop))
  {
    SetOnAt(cv, cs, prop);
    if AnyOff(cv, cs + [c], prop) {
      var x :| x in cs + [c] && !IsOn(cv[x].props, prop);
      if x != c {
        assert x in cs;
      }
    }
    if AnyOff(cv, cs, prop) {
      var x :| x in cs && !IsOn(cv[x].props, prop);
      assert x in cs + [c];
    }
    if !IsOn(SetOn(cv, cs, prop)[c].props, prop) {
      assert c !in cs;
      assert c in cs + [c];
    }
  }

  /** One turn of the first loop, stated on the loop's own state m and flag on. */
  lemma {:induction false} TurnOnStep(cv: map<CharId, Char>, cs: seq<CharId>, i: nat, m: map<CharId, Char>, on: bool, prop: string)
    requires i < |cs| && forall x: CharId :: x in cs ==> x in cv
    requires m == SetOn(cv, cs[..i], prop) && on == AnyOff(cv, cs[..i], prop)
    ensures cs[i] in m
    ensures var c := cs[i];
      SetOn(cv, cs[..i + 1], prop) == (if IsOn(m[c].props, prop) then m else m[c := m[c].(props := Set(m[c].props, prop, true))])
    ensures AnyOff(cv, cs[..i + 1], prop) == (on || !IsOn(m[cs[i]].props, prop))
  {
    TakeOneMore(cs, i);
    SetOnSnoc(cv, cs[..i], cs[i], prop);
    AnyOffSnoc(cv, cs[..i], cs[i], prop);
  }

  /** Two chars that differ at most in the value of prop. */
  ghost predicate SameBut(a: Char, b: Char, prop: string)
  {
    a.ch == b.ch && forall q :: q != prop ==> Get(a.props, q) == Get(b.props, q)
  }

  /** The first loop touches only prop, and only of the chars of cs. */
  lemma {:induction false} SetOnKeeps(cv: map<CharId, Char>, cs: seq<CharId>, prop: string)
    requires forall c: CharId :: c in cs ==> c in cv
    ensures forall c: CharId :: c in cv ==> SameBut(SetOn(cv, cs, prop)[c], cv[c], prop)
    decreases |cs|
  {
    if cs != [] {
      SetOnKeeps(cv, cs[..|cs| - 1], prop);
    }
  }

  /** After the second loop over cs every char of cs has prop false; nothing else changes. */
  lemma {:induction false} SetOffAt(cv: map<CharId, Char>, cs: seq<CharId>, prop: string)
    requires forall c: CharId :: c in cs ==> c in cv
    ensures forall c: CharId :: c in cs ==> Get(SetOff(cv, cs, prop)[c].props, prop) == Some(false)
    ensures forall c: CharId :: c in cv && c !in cs ==> SetOff(cv, cs, prop)[c] == cv[c]
    ensures forall c: CharId :: c in cv ==> SameBut(SetOff(cv, cs, prop)[c], cv[c], prop)
    decreases |cs|
  {
    if cs != [] {
      var init, x := cs[..|cs| - 1], cs[|cs| - 1];
      SetOffAt(cv, init, prop);
      assert cs == init + [x];
      forall c: CharId | c in cs ensures Get(SetOff(cv, cs, prop)[c].props, prop) == Some(false) {
        if c != x {
          assert c in init;
        }
      }
    }
  }

  /**
   * `word.toggleProp(prop)` (word.js:42-66): afterwards every char of the word has the same
   * value for prop, which is true exactly when some char had it falsy before; their text and
   * every other property stay as they were, and no other char changes.
   */
  lemma {:induction false} ToggleFacts(h: Heap, w: WordId, prop: string)
    requires w in h.wordChars && forall c: CharId :: c in h.wordChars[w] ==> c in h.charValue
    ensures var r, cs := ToggleEffect(h, w, prop), h.wordChars[w];
      && r.(charValue := h.charValue) == h && r.charValue.Keys == h.charValue.Keys
      && (forall c: CharId :: c in cs ==> IsOn(r.charValue[c].props, prop) == AnyOff(h.charValue, cs, prop))
      && (forall c: CharId :: c in cs ==> SameBut(r.charValue[c], h.charValue[c], prop))
      && (forall c: CharId :: c in h.charValue && c !in cs ==> r.charValue[c] == h.charValue[c])
  {
    var cs := h.wordChars[w];
    var on := SetOn(h.charValue, cs, prop);
    SetOnAt(h.charValue, cs, prop);
    SetOnKeeps(h.charValue, cs, prop);
    if !AnyOff(h.charValue, cs, prop) {
      SetOffAt(on, cs, prop);
    }
  }

  // ---------------------------------------------------------------------------------
  // insertAfter, insertBefore and removeChar of a Word (word.js:169-226)

  /** The splice of `word.insertAfter(refChar, chars)` (word.js:174-184), before its `split()`. */
  function CharsAddedAfter(h: Heap, w: WordId, ref: Option<CharId>, cs: seq<CharId>): Heap
    requires w in h.wordChars
  {
    h.(charParent := SetAll(h.charParent, cs, Some(w)),
       wordChars := h.wordChars[w := InsertAfter(h.wordChars[w], ref, cs)])
  }

  /** The splice of `word.insertBefore(refChar, chars)` (word.js:202-211), before its `split()`. */
  function CharsAddedBefore(h: Heap, w: WordId, ref: Option<CharId>, cs: seq<CharId>): Heap
    requires w in h.wordChars
  {
    h.(charParent := SetAll(h.charParent, cs, Some(w)),
       wordChars := h.wordChars[w := InsertBefore(h.wordChars[w], ref, cs)])
  }

  /** `word.insertAfter(refChar, chars)` (word.js:169-187): nothing for null chars, else splice and split. */
  ghost function InsertCharsAfterEffect(h: Heap, w: WordId, ref: Option<CharId>, cs: Option<seq<CharId>>): Heap
    requires w in h.wordChars
    requires cs.Some? ==> CanSplit(CharsAddedAfter(h, w, ref, cs.value), w)
  {
    if cs.None? then h else SplitEffect(CharsAddedAfter(h, w, ref, cs.value), w)
  }

  /** `word.insertBefore(refChar, chars)` (word.js:197-214). */
  ghost function InsertCharsBeforeEffect(h: Heap, w: WordId, ref: Option<CharId>, cs: Option<seq<CharId>>): Heap
    requires w in h.wordChars
    requires cs.Some? ==> CanSplit(CharsAddedBefore(h, w, ref, cs.value), w)
  {
    if cs.None? then h else SplitEffect(CharsAddedBefore(h, w, ref, cs.value), w)
  }

  /** `word.removeChar(char)` (word.js:221-226). */
  function CharRemoved(h: Heap, w: WordId, c: CharId): Heap
    requires w in h.wordChars
  {
    h.(wordChars := h.wordChars[w := RemoveFirst(h.wordChars[w], c)])
  }

  /**
   * The splice of `word.insertAfter`: every inserted char gets this word as parent, and the
   * chars land right after refChar, or at the end when refChar is null or not in the word.
   */
  lemma {:induction false} CharsAddedAfterLands(h: Heap, w: WordId, ref: Option<CharId>, cs: seq<CharId>)
    requires w in h.wordChars
    ensures var r, old_ := CharsAddedAfter(h, w, ref, cs), h.wordChars[w];
      var k := if Find(old_, ref) == -1 then |old_| else Find(old_, ref) + 1;
      && r.wordChars[w] == old_[..k] + cs + old_[k..]
      && (forall c: CharId :: c in cs ==> c in r.charParent && r.charParent[c] == Some(w))
      && (forall c: CharId :: c in h.charParent && c !in cs ==> c in r.charParent && r.charParent[c] == h.charParent[c])
      && (forall v: WordId :: v in h.wordChars && v != w ==> r.wordChars[v] == h.wordChars[v])
  {
    var old_ := h.wordChars[w];
    var k := if Find(old_, ref) == -1 then |old_| else Find(old_, ref) + 1;
    InsertAfterSlices(old_, ref, cs, k);
    var r := InsertAfter(old_, ref, cs);
    assert r == r[..k] + r[k..k + |cs|] + r[k + |cs|..];
    SetAllAt(h.charParent, cs, Some(w));
  }

  /**
   * The splice of `word.insertBefore`: every inserted char gets this word as parent, and the
   * chars land right before refChar, or at the front when refChar is null or not in the word.
   */
  lemma {:induction false} CharsAddedBeforeLands(h: Heap, w: WordId, ref: Option<CharId>, cs: seq<CharId>)
    requires w in h.wordChars
    ensures var r, old_ := CharsAddedBefore(h, w, ref, cs), h.wordChars[w];
      var k := if Find(old_, ref) == -1 then 0 else Find(old_, ref);
      && r.wordChars[w] == old_[..k] + cs + old_[k..]
      && (forall c: CharId :: c in cs ==> c in r.charParent && r.charParent[c] == Some(w))
      && (forall c: CharId :: c in h.charParent && c !in cs ==> c in r.charParent && r.charParent[c] == h.charParent[c])
      && (forall v: WordId :: v in h.wordChars && v != w ==> r.wordChars[v] == h.wordChars[v])
  {
    var old_ := h.wordChars[w];
    var k := if Find(old_, ref) == -1 then 0 else Find(old_, ref);
    InsertBeforeSlices(old_, ref, cs, k);
    var r := InsertBefore(old_, ref, cs);
    assert r == r[..k] + r[k..k + |cs|] + r[k + |cs|..];
    SetAllAt(h.charParent, cs, Some(w));
  }

  /** The splice into a word keeps the store well formed when the spliced chars are objects of it. */
  lemma {:induction false} CharsAddedBeforeKeeps(h: Heap, w: WordId, ref: Option<CharId>, cs: seq<CharId>)
    requires WellFormed(h) && w in h.wordChars && forall c: CharId :: c in cs ==> c in h.charValue
    ensures WellFormed(CharsAddedBefore(h, w, ref, cs))
  {
    SetAllAt(h.charParent, cs, Some(w));
    InsertBeforeMembers(h.wordChars[w], ref, cs);
  }

  lemma {:induction false} CharsAddedAfterKeeps(h: Heap, w: WordId, ref: Option<CharId>, cs: seq<CharId>)
    requires WellFormed(h) && w in h.wordChars && forall c: CharId :: c in cs ==> c in h.charValue
    ensures WellFormed(CharsAddedAfter(h, w, ref, cs))
  {
    SetAllAt(h.charParent, cs, Some(w));
    InsertAfterMembers(h.wordChars[w], ref, cs);
  }

  /**
   * `word.removeChar(char)` takes out the first occurrence of char and keeps the other chars
   * in order; a char the word does not hold leaves the store as it was (word.js:221-226).
   */
  lemma {:induction false} CharRemovedFacts(h: Heap, w: WordId, c: CharId)
    requires w in h.wordChars
    ensures c !in h.wordChars[w] ==> CharRemoved(h, w, c) == h
    ensures c in h.wordChars[w] ==>
      var cs, i := h.wordChars[w], IndexOf(h.wordChars[w], c);
      && CharRemoved(h, w, c).wordChars[w] == cs[..i] + cs[i + 1..]
      && c !in cs[..i]
      && multiset(CharRemoved(h, w, c).wordChars[w]) == multiset(cs) - multiset{c}
    ensures CharRemoved(h, w, c).(wordChars := h.wordChars) == h
  {
    if c in h.wordChars[w] {
      RemoveFirstSlices(h.wordChars[w], c);
    } else {
      assert h.wordChars[w := h.wordChars[w]] == h.wordChars;
    }
  }
}
