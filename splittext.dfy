/**
 * When `Word.split` (src/js/word.js:74-159) leaves the document's text alone: the runs it
 * cuts the word into keep their order exactly when all the new words stay in the word's
 * block (no newline) or all of them go to new blocks (the first separator is a newline).
 * Then the chars read block by block, and the text `document.toString()` builds from
 * them, are the same after the split as before.
 */
module SplitText {
  import opened Wrappers
  import opened Util
  import opened Seqs
  import opened WordScan
  import opened Chars
  import opened Tree
  import opened Words
  import opened SplitFacts
  import opened WordOrder

  /** The words m, m+1, ... that Fill gives the runs hold the chars of the runs, in order. */
  lemma {:induction false} WordsCharsFill(wc: map<WordId, seq<CharId>>, m: nat, runs: seq<seq<CharId>>)
    ensures forall v: WordId :: v in Ids(m, |runs|) ==> v in Fill(wc, m, runs)
    ensures WordsChars(Fill(wc, m, runs), Ids(m, |runs|)) == Concat(runs)
    decreases |runs|
  {
    if runs != [] {
      var k := |runs| - 1;
      var init := runs[..k];
      var G, F := Fill(wc, m, init), Fill(wc, m, runs);
      assert F == G[m + k := runs[k]];
      WordsCharsFill(wc, m, init);
      var ids := Ids(m, |runs|);
      assert ids[..k] == Ids(m, k) && ids[k] == m + k;
      forall v | v in Ids(m, k) ensures v in F && F[v] == G[v] {
        assert v < m + k;
      }
      WordsCharsFrame(G, F, Ids(m, k));
      assert runs == init + [runs[k]];
      ConcatAppend(init, [runs[k]]);
      ConcatOne(runs[k]);
    }
  }

  lemma {:induction false} IdsAppend(m: nat, a: nat, b: nat)
    ensures Ids(m, a) + Ids(m + a, b) == Ids(m, a + b)
  {
  }

  /** The ids of the groups, one group after the other, are the ids of all their runs in a row. */
  lemma {:induction false} ConcatIdGroups(m: nat, gs: seq<seq<seq<CharId>>>)
    ensures Concat(IdGroups(m, gs)) == Ids(m, |Concat(gs)|)
    decreases |gs|
  {
    if gs != [] {
      var r := IdGroups(m, gs);
      assert r[0] == Ids(m, |gs[0]|) && r[1..] == IdGroups(m + |gs[0]|, gs[1..]);
      ConcatIdGroups(m + |gs[0]|, gs[1..]);
      IdsAppend(m, |gs[0]|, |Concat(gs[1..])|);
    }
  }

  /** With only one kind of new word, the words follow w in the order their runs had. */
  lemma {:induction false} SplitOrderInOrder(h: Heap, w: WordId)
    requires w in h.wordChars && PlanIn(h, w).Split?
    requires PlanIn(h, w).groups == [] || PlanIn(h, w).same == []
    ensures SplitOrder(h, w) == Ids(h.next, |NewRuns(PlanIn(h, w))|)
  {
    var p := PlanIn(h, w);
    SplitGroupsIds(h, w);
    ConcatIdGroups(h.next + |p.same|, p.groups);
    if p.groups == [] {
      assert NewRuns(p) == p.same;
    } else {
      assert NewRuns(p) == Concat(p.groups);
    }
  }

  lemma {:induction false} RegroupKeepsChars(h: Heap, b: BlockId, w: WordId, gs: seq<seq<WordId>>)
    requires b in h.blockWords && gs != []
    ensures Regroup(h, b, w, gs).wordChars == h.wordChars && Regroup(h, b, w, gs).charValue == h.charValue
  {
  }

  lemma {:induction false} SplitRunsValues(h: Heap, w: WordId)
    requires CanSplit(h, w) && PlanIn(h, w).Split?
    ensures SplitRuns(h, w).charValue == h.charValue
  {
  }

  /** Split gives the word its first run and each new word one more run, and changes no char. */
  lemma {:induction false} SplitChars(h: Heap, w: WordId)
    requires CanSplit(h, w) && PlanIn(h, w).Split?
    ensures SplitEffect(h, w).wordChars == Fill(h.wordChars[w := PlanIn(h, w).first], h.next, NewRuns(PlanIn(h, w)))
    ensures SplitEffect(h, w).charValue == h.charValue
  {
    SplitHalves(h, w);
    SplitRunsChars(h, w);
    SplitRunsValues(h, w);
    var gs := SplitGroups(h, w);
    if gs == [] {
      SplitTailNone(SplitRuns(h, w), h.wordParent[w].value, w);
    } else {
      RegroupKeepsChars(SplitRuns(h, w), h.wordParent[w].value, w, gs);
    }
  }

  lemma {:induction false} WordsCharsFour(wc: map<WordId, seq<CharId>>, p: seq<WordId>, v: WordId, q: seq<WordId>, t: seq<WordId>)
    requires v in wc && (forall x: WordId :: x in p ==> x in wc)
    requires (forall x: WordId :: x in q ==> x in wc) && (forall x: WordId :: x in t ==> x in wc)
    ensures forall x: WordId :: x in p + [v] + q + t ==> x in wc
    ensures WordsChars(wc, p + [v] + q + t) == WordsChars(wc, p) + wc[v] + WordsChars(wc, q) + WordsChars(wc, t)
  {
    WordsCharsAppend(wc, p + [v] + q, t);
    WordsCharsAppend(wc, p + [v], q);
    WordsCharsAppend(wc, p, [v]);
    assert [v][..0] == [];
  }

  /**
   * The words of the runs put right after w, in the runs' order, with w keeping the first
   * run, hold the chars w held, in the same place.
   */
  lemma {:induction false} InsertedChars(wc: map<WordId, seq<CharId>>, dw: seq<WordId>, w: WordId, m: nat,
                      first: seq<CharId>, runs: seq<seq<CharId>>)
    requires forall v: WordId :: v in dw ==> v in wc && v < m
    requires w in dw && Distinct(dw)
    requires first + Concat(runs) == wc[w]
    ensures var wc', ds := Fill(wc[w := first], m, runs), InsertAfter(dw, Some(w), Ids(m, |runs|));
      && (forall v: WordId :: v in ds ==> v in wc')
      && WordsChars(wc', ds) == WordsChars(wc, dw)
  {
    var i := IndexOf(dw, w);
    var X, Y := dw[..i], dw[i + 1..];
    var ids := Ids(m, |runs|);
    var wc' := Fill(wc[w := first], m, runs);
    InsertedSplit(dw, w, ids);
    InsertedFrame(wc, dw, w, m, first, runs);
    WordsCharsFill(wc[w := first], m, runs);
    FillAt(wc[w := first], m, runs);
    InsertedGlue(wc, wc', X, w, ids, Y, first, Concat(runs));
  }

  lemma {:induction false} InsertedGlue(wc: map<WordId, seq<CharId>>, wc': map<WordId, seq<CharId>>, X: seq<WordId>, w: WordId,
                     ids: seq<WordId>, Y: seq<WordId>, first: seq<CharId>, rest: seq<CharId>)
    requires w in wc && w in wc' && wc'[w] == first && wc[w] == first + rest
    requires forall v: WordId :: v in X ==> v in wc && v in wc'
    requires forall v: WordId :: v in Y ==> v in wc && v in wc'
    requires forall v: WordId :: v in ids ==> v in wc'
    requires WordsChars(wc', X) == WordsChars(wc, X) && WordsChars(wc', Y) == WordsChars(wc, Y)
    requires WordsChars(wc', ids) == rest
    ensures forall v: WordId :: v in X + [w] + ids + Y ==> v in wc'
    ensures WordsChars(wc', X + [w] + ids + Y) == WordsChars(wc, X + [w] + [] + Y)
  {
    WordsCharsFour(wc', X, w, ids, Y);
    WordsCharsFour(wc, X, w, [], Y);
    var A, C := WordsChars(wc, X), WordsChars(wc, Y);
    assert A + first + rest + C == A + (first + rest) + [] + C;
  }

  lemma {:induction false} InsertedSplit(dw: seq<WordId>, w: WordId, ids: seq<WordId>)
    requires w in dw
    ensures var i := IndexOf(dw, w);
      && InsertAfter(dw, Some(w), ids) == dw[..i] + [w] + ids + dw[i + 1..]
      && dw == dw[..i] + [w] + [] + dw[i + 1..]
  {
    var i := IndexOf(dw, w);
    assert InsertAfter(dw, Some(w), ids) == dw[..i + 1] + ids + dw[i + 1..];
    JoinAt(dw, i, w, ids);
  }

  /** The list cut around position i, which holds x, with ids put in behind x. */
  lemma {:induction false} JoinAt<T>(s: seq<T>, i: nat, x: T, ids: seq<T>)
    requires i < |s| && s[i] == x
    ensures s[..i + 1] + ids + s[i + 1..] == s[..i] + [x] + ids + s[i + 1..]
    ensures s == s[..i] + [x] + [] + s[i + 1..]
  {
    TakeOneMore(s, i);
    assert s == s[..i + 1] + s[i + 1..];
  }

  /** The words before and after w keep their chars, and all of them are words of both maps. */
  lemma {:induction false} InsertedFrame(wc: map<WordId, seq<CharId>>, dw: seq<WordId>, w: WordId, m: nat,
                      first: seq<CharId>, runs: seq<seq<CharId>>)
    requires forall v: WordId :: v in dw ==> v in wc && v < m
    requires w in dw && Distinct(dw)
    ensures var i, wc' := IndexOf(dw, w), Fill(wc[w := first], m, runs);
      && w in wc'
      && (forall v: WordId :: v in dw[..i] ==> v in wc && v in wc')
      && (forall v: WordId :: v in dw[i + 1..] ==> v in wc && v in wc')
      && WordsChars(wc', dw[..i]) == WordsChars(wc, dw[..i])
      && WordsChars(wc', dw[i + 1..]) == WordsChars(wc, dw[i + 1..])
  {
    var i := IndexOf(dw, w);
    var X, Y := dw[..i], dw[i + 1..];
    var wc' := Fill(wc[w := first], m, runs);
    FillAt(wc[w := first], m, runs);
    forall v | v in Y ensures v != w {
      var j :| 0 <= j < |Y| && Y[j] == v;
      assert Y[j] == dw[i + 1 + j];
    }
    forall v | v in X + Y ensures v in wc && v in wc' && wc'[v] == wc[v] {
      assert v in dw && v != w;
    }
    WordsCharsFrame(wc, wc', X);
    WordsCharsFrame(wc, wc', Y);
  }

  /**
   * A split whose new words all stay in the word's block, or all go to new blocks, changes
   * neither the document's chars read block by block nor its text.
   */
  lemma {:induction false} SplitKeepsText(h: Heap, w: WordId)
    requires CanSplit(h, w) && Placed(h, w)
    requires PlanIn(h, w).Split? ==> PlanIn(h, w).groups == [] || PlanIn(h, w).same == []
    ensures WellFormed(SplitEffect(h, w))
    ensures Flatten(SplitEffect(h, w)) == Flatten(h)
    ensures DocString(SplitEffect(h, w)) == DocString(h)
  {
    SplitKeeps(h, w);
    if PlanIn(h, w).Split? {
      SplitKeepsChars(h, w);
      var r := SplitEffect(h, w);
      DocStringIsText(h, h.blocks);
      DocStringIsText(r, r.blocks);
    }
  }

  lemma {:induction false} SplitKeepsChars(h: Heap, w: WordId)
    requires CanSplit(h, w) && Placed(h, w) && PlanIn(h, w).Split?
    requires PlanIn(h, w).groups == [] || PlanIn(h, w).same == []
    ensures WellFormed(SplitEffect(h, w))
    ensures Flatten(SplitEffect(h, w)) == Flatten(h) && SplitEffect(h, w).charValue == h.charValue
  {
    var r := SplitEffect(h, w);
    var p := PlanIn(h, w);
    var b := h.wordParent[w].value;
    SplitWordOrder(h, w);
    SplitOrderInOrder(h, w);
    SplitChars(h, w);
    PlanJoins(h, w);
    BlocksCharsIsWords(h.blockWords, h.wordChars, h.blocks);
    BlocksCharsIsWords(r.blockWords, r.wordChars, r.blocks);
    var dw := DocWords(h.blockWords, h.blocks);
    DocWordsHas(h.blockWords, h.blocks, b, w);
    InsertedChars(h.wordChars, dw, w, h.next, p.first, NewRuns(p));
  }

  // ---------------------------------------------------------------------------------
  // A split that makes new blocks and also keeps words in the old block (word.js:134-157)

  lemma {:induction false} FillAppend<V>(mp: map<nat, V>, m: nat, a: seq<V>, b: seq<V>)
    ensures Fill(mp, m, a + b) == Fill(Fill(mp, m, a), m + |a|, b)
    decreases |b|
  {
    if b == [] {
      assert a + b == a;
    } else {
      var init, x := b[..|b| - 1], b[|b| - 1];
      FillAppend(mp, m, a, init);
      assert a + b == (a + init) + [x] && b == init + [x];
      FillSnoc(mp, m, a + init, x, m + |a| + |init|);
      FillSnoc(Fill(mp, m, a), m + |a|, init, x, m + |a| + |init|);
    }
  }

  /**
   * Words made from the runs S + G, with the words of G placed before those of S, hold the
   * chars of G and then those of S.
   */
  lemma {:induction false} SwappedRuns(wc: map<WordId, seq<CharId>>, m: nat, S: seq<seq<CharId>>, G: seq<seq<CharId>>)
    ensures forall v: WordId :: v in SwapIds(m, |S|, |G|) ==> v in Fill(wc, m, S + G)
    ensures WordsChars(Fill(wc, m, S + G), SwapIds(m, |S|, |G|)) == Concat(G) + Concat(S)
  {
    FillAppend(wc, m, S, G);
    WordsCharsFill(Fill(wc, m, S), m + |S|, G);
    EarlierRunsKept(wc, m, S, G);
    WordsCharsPair(Fill(Fill(wc, m, S), m + |S|, G), Ids(m + |S|, |G|), Ids(m, |S|), Concat(G), Concat(S), SwapIds(m, |S|, |G|));
  }

  /** Filling in the runs G after those of S leaves the words of S holding the chars of S. */
  lemma {:induction false} EarlierRunsKept(wc: map<WordId, seq<CharId>>, m: nat, S: seq<seq<CharId>>, G: seq<seq<CharId>>)
    ensures forall v: WordId :: v in Ids(m, |S|) ==> v in Fill(Fill(wc, m, S), m + |S|, G)
    ensures WordsChars(Fill(Fill(wc, m, S), m + |S|, G), Ids(m, |S|)) == Concat(S)
  {
    WordsCharsFill(wc, m, S);
    IdsBelow(m, |S|);
    FillKeepsBelow(Fill(wc, m, S), m + |S|, G, Ids(m, |S|));
  }

  lemma {:induction false} WordsCharsPair(wc: map<WordId, seq<CharId>>, a: seq<WordId>, b: seq<WordId>, ca: seq<CharId>, cb: seq<CharId>, ds: seq<WordId>)
    requires forall v: WordId :: v in a ==> v in wc
    requires forall v: WordId :: v in b ==> v in wc
    requires WordsChars(wc, a) == ca && WordsChars(wc, b) == cb
    requires ds == a + b
    ensures forall v: WordId :: v in ds ==> v in wc
    ensures WordsChars(wc, ds) == ca + cb
  {
    WordsCharsAppend(wc, a, b);
  }

  lemma {:induction false} IdsBelow(m: nat, n: nat)
    ensures forall v: nat :: v in Ids(m, n) ==> v < m + n
  {
  }

  /** Filling in keys from k on leaves the chars of words below k as they were. */
  lemma {:induction false} FillKeepsBelow(F: map<WordId, seq<CharId>>, k: nat, G: seq<seq<CharId>>, ids: seq<WordId>)
    requires forall v: WordId :: v in ids ==> v in F && v < k
    ensures forall v: WordId :: v in ids ==> v in Fill(F, k, G)
    ensures WordsChars(Fill(F, k, G), ids) == WordsChars(F, ids)
  {
    FillAt(F, k, G);
    WordsCharsFrame(F, Fill(F, k, G), ids);
  }


  /** The chars of the words before w in the document, and of those after it. */
  ghost function Around(h: Heap, w: WordId): (r: (seq<CharId>, seq<CharId>))
    requires Placed(h, w)
    ensures (forall c: CharId :: c in r.0 ==> c in h.charValue) && (forall c: CharId :: c in r.1 ==> c in h.charValue)
    ensures var dw := DocWords(h.blockWords, h.blocks);
      && (forall v: WordId :: v in dw ==> v in h.wordChars)
      && w in h.wordChars && WordsChars(h.wordChars, dw) == r.0 + h.wordChars[w] + r.1
  {
    AroundFacts(h, w);
    var dw := DocWords(h.blockWords, h.blocks);
    var i := IndexOf(dw, w);
    (WordsChars(h.wordChars, dw[..i]), WordsChars(h.wordChars, dw[i + 1..]))
  }

  lemma {:induction false} AroundFacts(h: Heap, w: WordId)
    requires Placed(h, w)
    ensures var dw := DocWords(h.blockWords, h.blocks);
      && w in dw && w in h.wordChars && (forall v: WordId :: v in dw ==> v in h.wordChars)
      && var i := IndexOf(dw, w);
      && (forall v: WordId :: v in dw[..i] ==> v in h.wordChars)
      && (forall v: WordId :: v in dw[i + 1..] ==> v in h.wordChars)
      && WordsChars(h.wordChars, dw) == WordsChars(h.wordChars, dw[..i]) + h.wordChars[w] + WordsChars(h.wordChars, dw[i + 1..])
      && (forall c: CharId :: c in WordsChars(h.wordChars, dw[..i]) ==> c in h.charValue)
      && (forall c: CharId :: c in WordsChars(h.wordChars, dw[i + 1..]) ==> c in h.charValue)
  {
    DocWordsHas(h.blockWords, h.blocks, h.wordParent[w].value, w);
    BlocksCharsIsWords(h.blockWords, h.wordChars, h.blocks);
    AroundSplit(h.wordChars, DocWords(h.blockWords, h.blocks), w);
    var dw := DocWords(h.blockWords, h.blocks);
    WordsCharsStored(h, dw[..IndexOf(dw, w)]);
    WordsCharsStored(h, dw[IndexOf(dw, w) + 1..]);
  }

  lemma {:induction false} AroundSplit(wc: map<WordId, seq<CharId>>, dw: seq<WordId>, w: WordId)
    requires w in dw && forall v: WordId :: v in dw ==> v in wc
    ensures w in wc && var i := IndexOf(dw, w);
      && (forall v: WordId :: v in dw[..i] ==> v in wc)
      && (forall v: WordId :: v in dw[i + 1..] ==> v in wc)
      && WordsChars(wc, dw) == WordsChars(wc, dw[..i]) + wc[w] + WordsChars(wc, dw[i + 1..])
  {
    WordsCharsAround(wc, dw, IndexOf(dw, w));
  }

  /** The chars of a list of words are those before position i, then word i's, then those after. */
  lemma {:induction false} WordsCharsAround(wc: map<WordId, seq<CharId>>, s: seq<WordId>, i: nat)
    requires i < |s| && forall v: WordId :: v in s ==> v in wc
    ensures s[i] in wc && (forall v: WordId :: v in s[..i] ==> v in wc) && (forall v: WordId :: v in s[i + 1..] ==> v in wc)
    ensures WordsChars(wc, s) == WordsChars(wc, s[..i]) + wc[s[i]] + WordsChars(wc, s[i + 1..])
  {
    SliceMembers(s, i);
    TakeOneMore(s, i);
    assert s == s[..i + 1] + s[i + 1..];
    WordsCharsAppend(wc, s[..i + 1], s[i + 1..]);
    assert s[..i + 1][..i] == s[..i];
  }

  /**
   * The words of the runs S + G put right after w, those of G first, with w keeping the
   * first run: the chars of G now come before those of S.
   */
  lemma {:induction false} SwappedChars(wc: map<WordId, seq<CharId>>, dw: seq<WordId>, w: WordId, m: nat,
                     first: seq<CharId>, S: seq<seq<CharId>>, G: seq<seq<CharId>>)
    requires forall v: WordId :: v in dw ==> v in wc && v < m
    requires w in dw && Distinct(dw)
    requires first + Concat(S + G) == wc[w]
    ensures forall v: WordId :: v in InsertAfter(dw, Some(w), SwapIds(m, |S|, |G|)) ==> v in Fill(wc[w := first], m, S + G)
    ensures var i := IndexOf(dw, w);
      WordsChars(Fill(wc[w := first], m, S + G), InsertAfter(dw, Some(w), SwapIds(m, |S|, |G|)))
        == WordsChars(wc, dw[..i]) + first + Concat(G) + Concat(S) + WordsChars(wc, dw[i + 1..])
  {
    var i := IndexOf(dw, w);
    InsertedSplit(dw, w, SwapIds(m, |S|, |G|));
    InsertedFrame(wc, dw, w, m, first, S + G);
    FillBelow(wc[w := first], m, S + G, w);
    SwappedRuns(wc[w := first], m, S, G);
    SwappedGlue(wc, Fill(wc[w := first], m, S + G), dw[..i], w, SwapIds(m, |S|, |G|), dw[i + 1..], first, Concat(G), Concat(S),
                InsertAfter(dw, Some(w), SwapIds(m, |S|, |G|)));
  }

  lemma {:induction false} SwappedGlue(wc: map<WordId, seq<CharId>>, wc': map<WordId, seq<CharId>>, X: seq<WordId>, w: WordId,
                    ids: seq<WordId>, Y: seq<WordId>, first: seq<CharId>, cG: seq<CharId>, cS: seq<CharId>, ds: seq<WordId>)
    requires ds == X + [w] + ids + Y
    requires w in wc' && wc'[w] == first
    requires forall v: WordId :: v in X ==> v in wc && v in wc'
    requires forall v: WordId :: v in Y ==> v in wc && v in wc'
    requires forall v: WordId :: v in ids ==> v in wc'
    requires WordsChars(wc', X) == WordsChars(wc, X) && WordsChars(wc', Y) == WordsChars(wc, Y)
    requires WordsChars(wc', ids) == cG + cS
    ensures forall v: WordId :: v in ds ==> v in wc'
    ensures WordsChars(wc', ds) == WordsChars(wc, X) + first + cG + cS + WordsChars(wc, Y)
  {
    WordsCharsFour(wc', X, w, ids, Y);
    Reassociate5(WordsChars(wc, X), first, cG, cS, WordsChars(wc, Y));
  }

  /**
   * Any split that keeps some new words in the block (before the first newline) and makes
   * new blocks too puts the chars of the new blocks' words before those of the words kept:
   * `removeWordsAfter` (word.js:147) carries the same-block words chained in at
   * word.js:134-140 to the end of the last new block.
   */
  lemma {:induction false} SplitReorders(h: Heap, w: WordId)
    requires CanSplit(h, w) && Placed(h, w) && PlanIn(h, w).Split?
    ensures WellFormed(SplitEffect(h, w)) && SplitEffect(h, w).charValue == h.charValue
    ensures var p, X, Y := PlanIn(h, w), Around(h, w).0, Around(h, w).1;
      && Flatten(h) == X + p.first + Concat(p.same) + Concat(Concat(p.groups)) + Y
      && Flatten(SplitEffect(h, w)) == X + p.first + Concat(Concat(p.groups)) + Concat(p.same) + Y
  {
    SplitFlatten(h, w);
    SwappedOrderChars(h, w);
    PlanJoins(h, w);
    BlocksCharsIsWords(h.blockWords, h.wordChars, h.blocks);
    ConcatAppend(PlanIn(h, w).same, Concat(PlanIn(h, w).groups));
    ReorderGlue(Flatten(h), Around(h, w).0, h.wordChars[w], Around(h, w).1, PlanIn(h, w).first, Concat(PlanIn(h, w).same), Concat(Concat(PlanIn(h, w).groups)));
  }

  /** The chars of the words in the order the split leaves them, as its new words hold them. */
  lemma {:induction false} SwappedOrderChars(h: Heap, w: WordId)
    requires CanSplit(h, w) && Placed(h, w) && PlanIn(h, w).Split?
    ensures var p := PlanIn(h, w);
      var wc', ds := Fill(h.wordChars[w := PlanIn(h, w).first], h.next, NewRuns(PlanIn(h, w))),
                     InsertAfter(DocWords(h.blockWords, h.blocks), Some(w), SplitOrder(h, w));
      && (forall v: WordId :: v in ds ==> v in wc')
      && WordsChars(wc', ds) == Around(h, w).0 + PlanIn(h, w).first + Concat(Concat(PlanIn(h, w).groups)) + Concat(PlanIn(h, w).same) + Around(h, w).1
  {
    SplitOrderSwapped(h, w);
    PlanJoins(h, w);
    AroundFacts(h, w);
    StoredBelowNext(h, DocWords(h.blockWords, h.blocks));
    assert NewRuns(PlanIn(h, w)) == PlanIn(h, w).same + Concat(PlanIn(h, w).groups);
    SwappedChars(h.wordChars, DocWords(h.blockWords, h.blocks), w, h.next, PlanIn(h, w).first,
                 PlanIn(h, w).same, Concat(PlanIn(h, w).groups));
  }

  lemma {:induction false} Reassociate5<T>(a: seq<T>, b: seq<T>, c: seq<T>, d: seq<T>, e: seq<T>)
    ensures a + b + (c + d) + e == a + b + c + d + e
  {
  }

  lemma {:induction false} ReorderGlue(all: seq<CharId>, X: seq<CharId>, cw: seq<CharId>, Y: seq<CharId>,
                    first: seq<CharId>, cS: seq<CharId>, cG: seq<CharId>)
    requires all == X + cw + Y && cw == first + (cS + cG)
    ensures all == X + first + cS + cG + Y
  {
  }

  /** Every word of the document is below `next`. */
  lemma {:induction false} StoredBelowNext(h: Heap, dw: seq<WordId>)
    requires WellFormed(h) && forall v: WordId :: v in dw ==> v in h.wordChars
    ensures forall v: WordId :: v in dw ==> v in h.wordChars && v < h.next
  {
  }

  /** The runs of a split, one after the other, are the word's chars. */
  lemma {:induction false} PlanJoins(h: Heap, w: WordId)
    requires w in h.wordChars && PlanIn(h, w).Split?
    ensures PlanIn(h, w).first + Concat(NewRuns(PlanIn(h, w))) == h.wordChars[w]
  {
    PlanIsGood(h.wordChars[w], KindIn(h.charValue));
  }

  /** The ids m .. m+s+g-1 with the last g of them moved to the front. */
  function SwapIds(m: nat, s: nat, g: nat): (r: seq<nat>)
    ensures |r| == s + g
    ensures forall k :: 0 <= k < g ==> r[k] == m + s + k
    ensures forall k :: g <= k < s + g ==> r[k] == m + k - g
  {
    Ids(m + s, g) + Ids(m, s)
  }

  /** The words the split makes follow w with those of the new blocks first. */
  lemma {:induction false} SplitOrderSwapped(h: Heap, w: WordId)
    requires w in h.wordChars && PlanIn(h, w).Split?
    ensures SplitOrder(h, w) == SwapIds(h.next, |PlanIn(h, w).same|, |Concat(PlanIn(h, w).groups)|)
  {
    var p := PlanIn(h, w);
    SplitGroupsIds(h, w);
    ConcatIdGroups(h.next + |p.same|, p.groups);
  }

  /** The chars after a split, read word by word in the new order of the words. */
  lemma {:induction false} SplitFlatten(h: Heap, w: WordId)
    requires CanSplit(h, w) && Placed(h, w) && PlanIn(h, w).Split?
    ensures WellFormed(SplitEffect(h, w)) && SplitEffect(h, w).charValue == h.charValue
    ensures var p, r := PlanIn(h, w), SplitEffect(h, w);
      var wc', ds := Fill(h.wordChars[w := p.first], h.next, NewRuns(p)),
                     InsertAfter(DocWords(h.blockWords, h.blocks), Some(w), SplitOrder(h, w));
      && (forall v: WordId :: v in ds ==> v in wc')
      && Flatten(r) == WordsChars(wc', ds)
  {
    var r := SplitEffect(h, w);
    SplitWordOrder(h, w);
    SplitChars(h, w);
    BlocksCharsIsWords(r.blockWords, r.wordChars, r.blocks);
  }

  /** The scan of any five chars "x", " ", "\n", "y", tail: two runs close, one stays, one block opens. */
  lemma {:induction false} ScanFive<T>(xs: seq<T>, kind: T -> Kind)
    requires |xs| == 5
    requires kind(xs[0]) == Plain && kind(xs[1]) == Space && kind(xs[2]) == NewLine && kind(xs[3]) == Plain
    ensures PlanOf(xs, kind) == Split([xs[0], xs[1]], [[xs[2]]], [[[xs[3], xs[4]]]])
  {
    assert ScanTo(xs, kind, 1) == ScanState([xs[0]], None, [], None, []);
    assert [xs[0]] + [xs[1]] == [xs[0], xs[1]] && [xs[3]] + [xs[4]] == [xs[3], xs[4]];
    var nl: seq<seq<T>>, b: seq<seq<seq<T>>> := [[xs[2]]], [[[xs[3], xs[4]]]];
    var e: seq<T> := [];
    assert e + [xs[2]] == [xs[2]] && e + [xs[3]] == [xs[3]];
    assert [] + nl == nl && [] + [[xs[3], xs[4]]] == b[0] && [] + b == b;
    assert ScanTo(xs, kind, 2) == ScanState([], Some([xs[0], xs[1]]), [], None, []);
    assert ScanTo(xs, kind, 3) == ScanState([], Some([xs[0], xs[1]]), [[xs[2]]], Some([]), []);
    assert ScanTo(xs, kind, 4) == ScanState([xs[3]], Some([xs[0], xs[1]]), [[xs[2]]], Some([]), []);
    assert ScanTo(xs, kind, 5) == ScanState([xs[3], xs[4]], Some([xs[0], xs[1]]), [[xs[2]]], Some([]), []);
  }

  /**
   * A word holding a plain char, a space, a newline, a plain char and one more char: the
   * split turns its chars c0 c1 c2 c3 c4 into c0 c1 c3 c4 c2 in the document's order.
   */
  lemma {:induction false} SplitMovesNewline(h: Heap, w: WordId)
    requires CanSplit(h, w) && Placed(h, w) && |h.wordChars[w]| == 5
    requires KindIn(h.charValue)(h.wordChars[w][0]) == Plain && KindIn(h.charValue)(h.wordChars[w][1]) == Space
    requires KindIn(h.charValue)(h.wordChars[w][2]) == NewLine && KindIn(h.charValue)(h.wordChars[w][3]) == Plain
    ensures WellFormed(SplitEffect(h, w)) && SplitEffect(h, w).charValue == h.charValue
    ensures Flatten(h) == Around(h, w).0 + h.wordChars[w] + Around(h, w).1
    ensures Flatten(SplitEffect(h, w)) == Around(h, w).0 + Moved(h.wordChars[w]) + Around(h, w).1
  {
    ScanFive(h.wordChars[w], KindIn(h.charValue));
    SplitReorders(h, w);
    MovedRuns(h.wordChars[w], PlanIn(h, w));
    var X, Y := Around(h, w).0, Around(h, w).1;
    JoinThree(X, PlanIn(h, w).first, Concat(PlanIn(h, w).same), Concat(Concat(PlanIn(h, w).groups)), Y, h.wordChars[w]);
    JoinThree(X, PlanIn(h, w).first, Concat(Concat(PlanIn(h, w).groups)), Concat(PlanIn(h, w).same), Y, Moved(h.wordChars[w]));
  }

  lemma {:induction false} JoinThree<T>(X: seq<T>, a: seq<T>, b: seq<T>, c: seq<T>, Y: seq<T>, abc: seq<T>)
    requires a + b + c == abc
    ensures X + a + b + c + Y == X + abc + Y
  {
  }

  /** c0 c1 c2 c3 c4 with c2 moved to the end. */
  function Moved<T>(cs: seq<T>): (r: seq<T>)
    requires |cs| == 5
    ensures |r| == 5 && r[..2] == cs[..2] && r[2..4] == cs[3..] && r[4] == cs[2]
  {
    [cs[0], cs[1], cs[3], cs[4], cs[2]]
  }

  lemma {:induction false} MovedRuns(cs: seq<CharId>, p: Plan<CharId>)
    requires |cs| == 5 && p == Split([cs[0], cs[1]], [[cs[2]]], [[[cs[3], cs[4]]]])
    ensures p.first + Concat(p.same) + Concat(Concat(p.groups)) == cs
    ensures p.first + Concat(Concat(p.groups)) + Concat(p.same) == Moved(cs)
  {
    ConcatOne([cs[2]]);
    ConcatOne([[cs[3], cs[4]]]);
    ConcatOne([cs[3], cs[4]]);
    assert cs == [cs[0], cs[1], cs[2], cs[3], cs[4]];
  }

  /**
   * The document `new Document("a \nb")` builds (document.js:11-22) holds one word with the
   * chars "a", " ", "\n", "b" and the tail "": once split, the document's text reads
   * "a b\n" in their place, as the newline has moved behind the new block's word.
   */
  lemma {:induction false} SplitMovesText(h: Heap, w: WordId)
    requires CanSplit(h, w) && Placed(h, w) && |h.wordChars[w]| == 5
    requires var cs, cv := h.wordChars[w], h.charValue;
      && cs[0] in cv && cs[1] in cv && cs[2] in cv && cs[3] in cv && cs[4] in cv
      && cv[cs[0]].ch == "a" && cv[cs[1]].ch == " " && cv[cs[2]].ch == "\n" && cv[cs[3]].ch == "b" && cv[cs[4]].ch == ""
    ensures WellFormed(SplitEffect(h, w))
    ensures var cv, X, Y := h.charValue, Around(h, w).0, Around(h, w).1;
      && DocString(h) == TextOf(cv, X) + "a \nb" + TextOf(cv, Y)
      && DocString(SplitEffect(h, w)) == TextOf(cv, X) + "a b\n" + TextOf(cv, Y)
  {
    FiveKinds(h.charValue, h.wordChars[w]);
    SplitMovesNewline(h, w);
    DocMovedText(h, SplitEffect(h, w), Around(h, w).0, h.wordChars[w], Around(h, w).1);
  }

  lemma {:induction false} FiveKinds(cv: map<CharId, Char>, cs: seq<CharId>)
    requires |cs| == 5 && cs[0] in cv && cs[1] in cv && cs[2] in cv && cs[3] in cv
    requires cv[cs[0]].ch == "a" && cv[cs[1]].ch == " " && cv[cs[2]].ch == "\n" && cv[cs[3]].ch == "b"
    ensures KindIn(cv)(cs[0]) == Plain && KindIn(cv)(cs[1]) == Space
    ensures KindIn(cv)(cs[2]) == NewLine && KindIn(cv)(cs[3]) == Plain
  {
    assert " "[0] == ' ' && IsRegExpSpace(' ');
  }

  /** Two documents whose chars read X cs Y and X Moved(cs) Y, for the word "a \nb". */
  lemma {:induction false} DocMovedText(h: Heap, r: Heap, X: seq<CharId>, cs: seq<CharId>, Y: seq<CharId>)
    requires WellFormed(h) && WellFormed(r) && r.charValue == h.charValue && |cs| == 5
    requires (forall c: CharId :: c in X ==> c in h.charValue) && (forall c: CharId :: c in Y ==> c in h.charValue)
    requires var cv := h.charValue;
      && cs[0] in cv && cs[1] in cv && cs[2] in cv && cs[3] in cv && cs[4] in cv
      && cv[cs[0]].ch == "a" && cv[cs[1]].ch == " " && cv[cs[2]].ch == "\n" && cv[cs[3]].ch == "b" && cv[cs[4]].ch == ""
    requires Flatten(h) == X + cs + Y && Flatten(r) == X + Moved(cs) + Y
    ensures DocString(h) == TextOf(h.charValue, X) + "a \nb" + TextOf(h.charValue, Y)
    ensures DocString(r) == TextOf(h.charValue, X) + "a b\n" + TextOf(h.charValue, Y)
  {
    DocStringIsText(h, h.blocks);
    DocStringIsText(r, r.blocks);
    MovedText(h.charValue, X, cs, Y);
  }

  lemma {:induction false} MovedText(cv: map<CharId, Char>, X: seq<CharId>, cs: seq<CharId>, Y: seq<CharId>)
    requires |cs| == 5 && (forall c: CharId :: c in X ==> c in cv) && (forall c: CharId :: c in Y ==> c in cv)
    requires cs[0] in cv && cs[1] in cv && cs[2] in cv && cs[3] in cv && cs[4] in cv
    requires cv[cs[0]].ch == "a" && cv[cs[1]].ch == " " && cv[cs[2]].ch == "\n" && cv[cs[3]].ch == "b" && cv[cs[4]].ch == ""
    ensures forall c: CharId :: c in X + cs + Y ==> c in cv
    ensures forall c: CharId :: c in X + Moved(cs) + Y ==> c in cv
    ensures TextOf(cv, X + cs + Y) == TextOf(cv, X) + "a \nb" + TextOf(cv, Y)
    ensures TextOf(cv, X + Moved(cs) + Y) == TextOf(cv, X) + "a b\n" + TextOf(cv, Y)
  {
    FiveTexts(cv, cs);
    TextAround(cv, X, cs, Y, "a \nb");
    TextAround(cv, X, Moved(cs), Y, "a b\n");
  }

  lemma {:induction false} FiveTexts(cv: map<CharId, Char>, cs: seq<CharId>)
    requires |cs| == 5 && cs[0] in cv && cs[1] in cv && cs[2] in cv && cs[3] in cv && cs[4] in cv
    requires cv[cs[0]].ch == "a" && cv[cs[1]].ch == " " && cv[cs[2]].ch == "\n" && cv[cs[3]].ch == "b" && cv[cs[4]].ch == ""
    ensures forall c: CharId :: c in cs ==> c in cv
    ensures forall c: CharId :: c in Moved(cs) ==> c in cv
    ensures TextOf(cv, cs) == "a \nb" && TextOf(cv, Moved(cs)) == "a b\n"
  {
    assert cs == [cs[0], cs[1], cs[2], cs[3], cs[4]];
    TextOfFive(cv, cs[0], cs[1], cs[2], cs[3], cs[4]);
    TextOfFive(cv, cs[0], cs[1], cs[3], cs[4], cs[2]);
  }

  lemma {:induction false} TextAround(cv: map<CharId, Char>, X: seq<CharId>, cs: seq<CharId>, Y: seq<CharId>, t: string)
    requires forall c: CharId :: c in X ==> c in cv
    requires forall c: CharId :: c in cs ==> c in cv
    requires forall c: CharId :: c in Y ==> c in cv
    requires TextOf(cv, cs) == t
    ensures forall c: CharId :: c in X + cs + Y ==> c in cv
    ensures TextOf(cv, X + cs + Y) == TextOf(cv, X) + t + TextOf(cv, Y)
  {
    TextAppend(cv, X + cs, Y);
    TextAppend(cv, X, cs);
  }

  lemma {:induction false} TextOfFive(cv: map<CharId, Char>, a: CharId, b: CharId, c: CharId, d: CharId, e: CharId)
    requires a in cv && b in cv && c in cv && d in cv && e in cv
    ensures TextOf(cv, [a, b, c, d, e]) == cv[a].ch + cv[b].ch + cv[c].ch + cv[d].ch + cv[e].ch
  {
    assert [a][..0] == [] && [a, b][..1] == [a] && [a, b, c][..2] == [a, b];
    assert [a, b, c, d][..3] == [a, b, c] && [a, b, c, d, e][..4] == [a, b, c, d];
    assert TextOf(cv, [a]) == cv[a].ch;
    assert TextOf(cv, [a, b]) == cv[a].ch + cv[b].ch;
    assert TextOf(cv, [a, b, c]) == cv[a].ch + cv[b].ch + cv[c].ch;
    assert TextOf(cv, [a, b, c, d]) == cv[a].ch + cv[b].ch + cv[c].ch + cv[d].ch;
  }
}
