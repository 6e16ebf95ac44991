/**
 * Where the words that `Word.split` (src/js/word.js:74-159) makes end up in the document.
 * Reading the document's words block by block, the split puts all of them right after the
 * word it splits: first the words of the new blocks (word.js:143-152), then the words that
 * stay in the word's own block (word.js:134-140).  The chars run the other way round, same-
 * block runs first, so the two orders agree only when one of the two kinds is absent.
 */
module WordOrder {
  import opened Wrappers
  import opened Util
  import opened Seqs
  import opened WordScan
  import opened Tree
  import opened Words
  import opened SplitFacts

  /** The words of the last group followed by the words cut off after w (word.js:155-157). */
  function Tack(gs: seq<seq<WordId>>, l: seq<WordId>): seq<seq<WordId>>
    requires gs != []
  {
    gs[..|gs| - 1] + [gs[|gs| - 1] + l]
  }

  lemma {:induction false} TackConcat(gs: seq<seq<WordId>>, l: seq<WordId>)
    requires gs != []
    ensures |Tack(gs, l)| == |gs| && Concat(Tack(gs, l)) == Concat(gs) + l
  {
    var init, last := gs[..|gs| - 1], gs[|gs| - 1];
    assert gs == init + [last];
    ConcatAppend(init, [last]);
    ConcatAppend(init, [last + l]);
    ConcatOne(last);
    ConcatOne(last + l);
  }

  /** The blocks m, m+1, ... that Fill gives the lists vs hold the words of vs, in order. */
  lemma {:induction false} FillIds(bw: map<BlockId, seq<WordId>>, m: nat, vs: seq<seq<WordId>>)
    ensures forall x: BlockId :: x in Ids(m, |vs|) ==> x in Fill(bw, m, vs)
    ensures DocWords(Fill(bw, m, vs), Ids(m, |vs|)) == Concat(vs)
    decreases |vs|
  {
    if vs != [] {
      var k := |vs| - 1;
      var init := vs[..k];
      var G, F := Fill(bw, m, init), Fill(bw, m, vs);
      assert F == G[m + k := vs[k]];
      FillIds(bw, m, init);
      var ids := Ids(m, |vs|);
      assert ids[..k] == Ids(m, k) && ids[k] == m + k;
      forall x | x in Ids(m, k) ensures x in F && F[x] == G[x] {
        assert x < m + k;
      }
      DocWordsFrame(G, F, Ids(m, k));
      assert vs == init + [vs[k]];
      ConcatAppend(init, [vs[k]]);
      ConcatOne(vs[k]);
    }
  }

  /** The document's words around block b, which shows up once: replacing b's list replaces that part. */
  lemma {:induction false} DocWordsSplit(bw: map<BlockId, seq<WordId>>, bs: seq<BlockId>, b: BlockId, l: seq<WordId>)
    requires b in bs && Distinct(bs) && forall x: BlockId :: x in bs ==> x in bw
    ensures var k := IndexOf(bs, b);
      var A, C := DocWords(bw, bs[..k]), DocWords(bw, bs[k + 1..]);
      && DocWords(bw, bs) == A + bw[b] + C
      && DocWords(bw[b := l], bs) == A + l + C
  {
    var k := IndexOf(bs, b);
    var P, Q := bs[..k], bs[k + 1..];
    var bw' := bw[b := l];
    assert bs == P + [b] + Q;
    forall x | x in Q ensures x != b {
      var j :| 0 <= j < |Q| && Q[j] == x;
      assert Q[j] == bs[k + 1 + j];
    }
    DocWordsAppend(bw, P + [b], Q);
    DocWordsAppend(bw, P, [b]);
    DocWordsAppend(bw', P + [b], Q);
    DocWordsAppend(bw', P, [b]);
    DocWordsFrame(bw, bw', P);
    DocWordsFrame(bw, bw', Q);
    assert [b][..0] == [];
  }

  /** The same-block words chained in after w (word.js:134-140) land right after w in the document. */
  lemma {:induction false} ChainedOrder(bw: map<BlockId, seq<WordId>>, bs: seq<BlockId>, b: BlockId, w: WordId, S: seq<WordId>)
    requires b in bs && Distinct(bs) && forall x: BlockId :: x in bs ==> x in bw
    requires w in bw[b] && Distinct(DocWords(bw, bs))
    ensures DocWords(bw[b := InsertAfter(bw[b], Some(w), S)], bs) == InsertAfter(DocWords(bw, bs), Some(w), S)
  {
    var k := IndexOf(bs, b);
    var A, C := DocWords(bw, bs[..k]), DocWords(bw, bs[k + 1..]);
    DocWordsSplit(bw, bs, b, InsertAfter(bw[b], Some(w), S));
    DistinctApart(A, bw[b], C, w);
    InsertAfterInside(A, bw[b], C, w, S);
  }

  /** Fresh blocks chained in after b, which shows up once, land right after b. */
  lemma {:induction false} BlocksAfter(bs: seq<BlockId>, b: BlockId, m: nat, n: nat)
    requires b in bs && forall x: BlockId :: x in bs ==> x < m
    ensures var k := IndexOf(bs, b); Chain(bs, b, Ids(m, n)) == bs[..k] + [b] + Ids(m, n) + bs[k + 1..]
  {
    var k := IndexOf(bs, b);
    var nb := Ids(m, n);
    forall e | e in nb ensures e !in bs && e != b {
      var j :| 0 <= j < n && nb[j] == e;
    }
    forall i, j | 0 <= i < j < n ensures nb[i] != nb[j] {
    }
    ChainIsInsert(bs, b, nb);
    assert InsertAfter(bs, Some(b), nb) == bs[..k + 1] + nb + bs[k + 1..];
    TakeOneMore(bs, k);
  }

  lemma {:induction false} DocWordsFour(bw: map<BlockId, seq<WordId>>, p: seq<BlockId>, b: BlockId, q: seq<BlockId>, t: seq<BlockId>, ds: seq<BlockId>)
    requires b in bw && (forall x: BlockId :: x in p ==> x in bw)
    requires (forall x: BlockId :: x in q ==> x in bw) && (forall x: BlockId :: x in t ==> x in bw)
    requires ds == p + [b] + q + t
    ensures forall x: BlockId :: x in ds ==> x in bw
    ensures DocWords(bw, ds) == DocWords(bw, p) + bw[b] + DocWords(bw, q) + DocWords(bw, t)
  {
    DocWordsAppend(bw, p + [b] + q, t);
    DocWordsAppend(bw, p + [b], q);
    DocWordsAppend(bw, p, [b]);
    assert [b][..0] == [];
  }

  /** The list a reader meets after the split is the old one with g + s spliced in after w. */
  lemma {:induction false} SpliceAround(a: seq<WordId>, ws: seq<WordId>, c: seq<WordId>, w: WordId, g: seq<WordId>, s: seq<WordId>)
    requires w in ws && w !in a
    ensures var i := IndexOf(ws, w);
      a + ws[..i + 1] + (g + (s + ws[i + 1..])) + c == InsertAfter(a + ws + c, Some(w), g + s)
  {
    var i := IndexOf(ws, w);
    var l, r := ws[..i + 1], ws[i + 1..];
    var whole, part := InsertAfter(a + ws + c, Some(w), g + s), InsertAfter(ws, Some(w), g + s);
    assert whole == a + part + c by {
      InsertAfterInside(a, ws, c, w, g + s);
    }
    assert part == l + (g + s) + r by {
      InsertAfterFound(ws, w, g + s);
    }
    Reassociate(a, l, r, c, g, s, part, whole);
  }

  lemma {:induction false} InsertAfterFound(ws: seq<WordId>, w: WordId, xs: seq<WordId>)
    requires w in ws
    ensures var i := IndexOf(ws, w); InsertAfter(ws, Some(w), xs) == ws[..i + 1] + xs + ws[i + 1..]
  {
  }

  lemma {:induction false} Reassociate(a: seq<WordId>, l: seq<WordId>, r: seq<WordId>, c: seq<WordId>, g: seq<WordId>, s: seq<WordId>, part: seq<WordId>, whole: seq<WordId>)
    requires part == l + (g + s) + r && whole == a + part + c
    ensures a + l + (g + (s + r)) + c == whole
  {
    assert g + (s + r) == (g + s) + r;
    assert a + l + ((g + s) + r) == a + (l + (g + s) + r);
  }

  /**
   * Cutting b after w, putting a new block for each group right after b and moving the
   * cut-off words to the last of them (word.js:143-157) puts the groups' words, and then
   * the cut-off words, right after w.
   */
  lemma {:induction false} RegroupOrder(bw: map<BlockId, seq<WordId>>, bs: seq<BlockId>, b: BlockId, w: WordId,
                     S: seq<WordId>, m: nat, gs: seq<seq<WordId>>)
    requires b in bs && Distinct(bs) && forall x: BlockId :: x in bs ==> x in bw && x < m
    requires w in bw[b] && Distinct(DocWords(bw, bs)) && gs != []
    ensures var cut := CutAfter(InsertAfter(bw[b], Some(w), S), w);
      && (forall x: BlockId :: x in Chain(bs, b, Ids(m, |gs|)) ==> x in Fill(bw[b := cut.0], m, Tack(gs, cut.1)))
      && DocWords(Fill(bw[b := cut.0], m, Tack(gs, cut.1)), Chain(bs, b, Ids(m, |gs|)))
         == InsertAfter(DocWords(bw, bs), Some(w), Concat(gs) + S)
  {
    var ws := bw[b];
    var i := IndexOf(ws, w);
    CutAfterInserted(ws, w, S);
    var cut := CutAfter(InsertAfter(ws, Some(w), S), w);
    assert cut.0 == ws[..i + 1] && cut.1 == S + ws[i + 1..];
    var k := IndexOf(bs, b);
    var A, C := DocWords(bw, bs[..k]), DocWords(bw, bs[k + 1..]);
    RegroupPieces(bw, bs, b, cut.0, cut.1, m, gs);
    DocWordsSplit(bw, bs, b, ws);
    DistinctApart(A, ws, C, w);
    SpliceAround(A, ws, C, w, Concat(gs), S);
  }

  /** Read block by block, the regrouped document is: before b, what b keeps, the new blocks, after b. */
  lemma {:induction false} RegroupPieces(bw: map<BlockId, seq<WordId>>, bs: seq<BlockId>, b: BlockId, kept: seq<WordId>, cutOff: seq<WordId>,
                      m: nat, gs: seq<seq<WordId>>)
    requires b in bs && Distinct(bs) && forall x: BlockId :: x in bs ==> x in bw && x < m
    requires gs != []
    ensures var k, F, order := IndexOf(bs, b), Fill(bw[b := kept], m, Tack(gs, cutOff)), Chain(bs, b, Ids(m, |gs|));
      && (forall x: BlockId :: x in order ==> x in F)
      && DocWords(F, order) == DocWords(bw, bs[..k]) + kept + (Concat(gs) + cutOff) + DocWords(bw, bs[k + 1..])
  {
    var T := Tack(gs, cutOff);
    TackConcat(gs, cutOff);
    var F := Fill(bw[b := kept], m, T);
    var k := IndexOf(bs, b);
    var P, Q := bs[..k], bs[k + 1..];
    FillIds(bw[b := kept], m, T);
    RegroupFrame(bw, bs, b, kept, m, T);
    RegroupRaw(bs, b, m, F, |gs|);
    var mid := DocWords(F, Ids(m, |gs|));
    assert mid == Concat(gs) + cutOff;
  }

  lemma {:induction false} RegroupRaw(bs: seq<BlockId>, b: BlockId, m: nat, F: map<BlockId, seq<WordId>>, n: nat)
    requires b in bs && forall x: BlockId :: x in bs ==> x in F && x < m
    requires forall x: BlockId :: x in Ids(m, n) ==> x in F
    ensures var k, order := IndexOf(bs, b), Chain(bs, b, Ids(m, n));
      && (forall x: BlockId :: x in order ==> x in F)
      && DocWords(F, order) == DocWords(F, bs[..k]) + F[b] + DocWords(F, Ids(m, n)) + DocWords(F, bs[k + 1..])
  {
    var k := IndexOf(bs, b);
    var P, Q, nb := bs[..k], bs[k + 1..], Ids(m, n);
    BlocksAfter(bs, b, m, n);
    SliceMembers(bs, k);
    DocWordsFour(F, P, b, nb, Q, Chain(bs, b, nb));
  }

  /** The blocks other than b and the new ones keep their lists, and every block has one. */
  lemma {:induction false} RegroupFrame(bw: map<BlockId, seq<WordId>>, bs: seq<BlockId>, b: BlockId, l: seq<WordId>, m: nat, T: seq<seq<WordId>>)
    requires b in bs && Distinct(bs) && forall x: BlockId :: x in bs ==> x in bw && x < m
    ensures var k, F := IndexOf(bs, b), Fill(bw[b := l], m, T);
      && (forall x: BlockId :: x in bs ==> x in F)
      && F[b] == l
      && DocWords(F, bs[..k]) == DocWords(bw, bs[..k])
      && DocWords(F, bs[k + 1..]) == DocWords(bw, bs[k + 1..])
  {
    var k := IndexOf(bs, b);
    var P, Q := bs[..k], bs[k + 1..];
    var F := Fill(bw[b := l], m, T);
    FillAt(bw[b := l], m, T);
    forall x | x in Q ensures x != b {
      var j :| 0 <= j < |Q| && Q[j] == x;
      assert Q[j] == bs[k + 1 + j];
    }
    forall x | x in P + Q ensures x in bw && x in F && F[x] == bw[x] {
      assert x in bs && x != b;
    }
    DocWordsFrame(bw, F, P);
    DocWordsFrame(bw, F, Q);
  }

  /** The order in which the words that split makes follow w: new-block words, then same-block ones. */
  function SplitOrder(h: Heap, w: WordId): seq<WordId>
    requires w in h.wordChars && PlanIn(h, w).Split?
  {
    Concat(SplitGroups(h, w)) + Ids(h.next, |PlanIn(h, w).same|)
  }

  /** w is in the list of its parent block, that block is in the document once, and no word shows up twice. */
  ghost predicate Placed(h: Heap, w: WordId)
  {
    && WellFormed(h) && w in h.wordParent && h.wordParent[w].Some?
    && (var b := h.wordParent[w].value; b in h.blocks && b in h.blockWords && w in h.blockWords[b])
    && Distinct(h.blocks) && Distinct(DocWords(h.blockWords, h.blocks))
  }

  lemma {:induction false} SplitRunsLists(h: Heap, w: WordId)
    requires CanSplit(h, w) && PlanIn(h, w).Split?
    ensures var r, b := SplitRuns(h, w), h.wordParent[w].value;
      && r.blocks == h.blocks && r.next == h.next + |NewRuns(PlanIn(h, w))|
      && r.blockWords == h.blockWords[b := Chain(h.blockWords[b], w, Ids(h.next, |PlanIn(h, w).same|))]
  {
  }

  lemma {:induction false} RegroupLists(h: Heap, b: BlockId, w: WordId, gs: seq<seq<WordId>>)
    requires b in h.blockWords && gs != []
    ensures var r, cut := Regroup(h, b, w, gs), CutAfter(h.blockWords[b], w);
      && r.blocks == Chain(h.blocks, b, Ids(h.next, |gs|))
      && r.blockWords == Fill(h.blockWords[b := cut.0], h.next, Tack(gs, cut.1))
  {
    var cut := CutAfter(h.blockWords[b], w);
    var mp := h.blockWords[b := cut.0];
    var h3 := WordsCut(h, b, w);
    var h4 := WithBlocks(h3, b, gs);
    var last := LastBlock(h3, b, gs);
    AppendedLists(h4, last, cut.1);
    WithBlocksFields(h3, b, gs);
    assert h3.blocks == h.blocks && h3.blockWords == mp && h3.next == h.next;
    assert last == h.next + |gs| - 1;
    FillTack(mp, h.next, gs, cut.1);
  }

  lemma {:induction false} WithBlocksFields(h: Heap, b: BlockId, gs: seq<seq<WordId>>)
    ensures WithBlocks(h, b, gs).blocks == Chain(h.blocks, b, Ids(h.next, |gs|))
    ensures WithBlocks(h, b, gs).blockWords == Fill(h.blockWords, h.next, gs)
  {
  }

  /** Filling in the tacked groups is filling in the groups and then lengthening the last list. */
  lemma {:induction false} FillTack(mp: map<BlockId, seq<WordId>>, m: nat, gs: seq<seq<WordId>>, l: seq<WordId>)
    requires gs != []
    ensures var L := m + |gs| - 1; var F := Fill(mp, m, gs);
      L in F && Fill(mp, m, Tack(gs, l)) == F[L := F[L] + l]
  {
    var k := |gs| - 1;
    var init, last := gs[..k], gs[k];
    assert gs == init + [last];
    assert Tack(gs, l) == init + [last + l];
    FillSnoc(mp, m, init, last, m + k);
    FillSnoc(mp, m, init, last + l, m + k);
  }

  lemma {:induction false} AppendedLists(h: Heap, b: BlockId, ws: seq<WordId>)
    requires b in h.blockWords
    ensures Appended(h, b, ws).blocks == h.blocks
    ensures Appended(h, b, ws).blockWords == h.blockWords[b := h.blockWords[b] + ws]
  {
  }

  /** Fresh ids chained in after w land right after w, as one splice. */
  lemma {:induction false} FreshChain(s: seq<nat>, w: nat, m: nat, n: nat)
    requires w < m && forall x: nat :: x in s ==> x < m
    ensures Chain(s, w, Ids(m, n)) == InsertAfter(s, Some(w), Ids(m, n))
  {
    var ids := Ids(m, n);
    forall e | e in ids ensures e !in s && e != w {
      var j :| 0 <= j < n && ids[j] == e;
    }
    forall i, j | 0 <= i < j < n ensures ids[i] != ids[j] {
    }
    ChainIsInsert(s, w, ids);
  }

  /**
   * `split` (word.js:74-159) puts every word it makes right after w in the document's list
   * of words, the words of the new blocks first and the words of w's own block after them,
   * and leaves every other word where it was.
   */
  lemma {:induction false} SplitWordOrder(h: Heap, w: WordId)
    requires CanSplit(h, w) && PlanIn(h, w).Split? && Placed(h, w)
    ensures WellFormed(SplitEffect(h, w))
    ensures var r := SplitEffect(h, w);
      DocWords(r.blockWords, r.blocks) == InsertAfter(DocWords(h.blockWords, h.blocks), Some(w), SplitOrder(h, w))
  {
    SplitKeeps(h, w);
    SplitHalves(h, w);
    var b := h.wordParent[w].value;
    if SplitGroups(h, w) == [] {
      SplitTailNone(SplitRuns(h, w), b, w);
      SplitOrderSame(h, w);
    } else {
      SplitOrderNewBlocks(h, w);
    }
  }

  lemma {:induction false} StoredBelow(h: Heap, b: BlockId)
    requires WellFormed(h) && b in h.blockWords
    ensures forall x: BlockId :: x in h.blocks ==> x in h.blockWords && x < h.next
    ensures forall v: WordId :: v in h.blockWords[b] ==> v < h.next
  {
    forall v: WordId | v in h.blockWords[b] ensures v < h.next {
      assert v in h.wordChars;
    }
  }

  /** Without newlines the same-block words follow w, in the order they were made. */
  lemma {:induction false} SplitOrderSame(h: Heap, w: WordId)
    requires CanSplit(h, w) && PlanIn(h, w).Split? && Placed(h, w) && SplitGroups(h, w) == []
    ensures var r := SplitRuns(h, w);
      && (forall x: BlockId :: x in r.blocks ==> x in r.blockWords)
      && DocWords(r.blockWords, r.blocks) == InsertAfter(DocWords(h.blockWords, h.blocks), Some(w), SplitOrder(h, w))
  {
    var b := h.wordParent[w].value;
    var S := Ids(h.next, |PlanIn(h, w).same|);
    SplitRunsLists(h, w);
    StoredBelow(h, b);
    FreshChain(h.blockWords[b], w, h.next, |PlanIn(h, w).same|);
    ChainedOrder(h.blockWords, h.blocks, b, w, S);
    assert SplitOrder(h, w) == S;
  }

  /** With newlines the words of the new blocks follow w, and the same-block words come after them. */
  lemma {:induction false} SplitOrderNewBlocks(h: Heap, w: WordId)
    requires CanSplit(h, w) && PlanIn(h, w).Split? && Placed(h, w) && SplitGroups(h, w) != []
    ensures var r := Regroup(SplitRuns(h, w), h.wordParent[w].value, w, SplitGroups(h, w));
      && (forall x: BlockId :: x in r.blocks ==> x in r.blockWords)
      && DocWords(r.blockWords, r.blocks) == InsertAfter(DocWords(h.blockWords, h.blocks), Some(w), SplitOrder(h, w))
  {
    var b := h.wordParent[w].value;
    var S := Ids(h.next, |PlanIn(h, w).same|);
    var gs := SplitGroups(h, w);
    var h2 := SplitRuns(h, w);
    SplitRunsLists(h, w);
    StoredBelow(h, b);
    FreshChain(h.blockWords[b], w, h.next, |PlanIn(h, w).same|);
    RegroupOver(SplitRuns(h, w), h.blockWords, h.blocks, b, w, S, gs);
    assert SplitOrder(h, w) == Concat(gs) + S;
  }

  /** The second half of split, on a store whose block b already has S chained in after w. */
  lemma {:induction false} RegroupOver(h2: Heap, bw: map<BlockId, seq<WordId>>, bs: seq<BlockId>, b: BlockId, w: WordId,
                    S: seq<WordId>, gs: seq<seq<WordId>>)
    requires b in bs && Distinct(bs) && forall x: BlockId :: x in bs ==> x in bw && x < h2.next
    requires w in bw[b] && Distinct(DocWords(bw, bs)) && gs != []
    requires h2.blockWords == bw[b := InsertAfter(bw[b], Some(w), S)] && h2.blocks == bs
    ensures var r := Regroup(h2, b, w, gs);
      && (forall x: BlockId :: x in r.blocks ==> x in r.blockWords)
      && DocWords(r.blockWords, r.blocks) == InsertAfter(DocWords(bw, bs), Some(w), Concat(gs) + S)
  {
    var cut := CutAfter(h2.blockWords[b], w);
    RegroupLists(h2, b, w, gs);
    assert h2.blockWords[b := cut.0] == bw[b := cut.0];
    RegroupOrder(bw, bs, b, w, S, h2.next, gs);
  }
}
