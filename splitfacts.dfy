/**
 * What `Word.split` (src/js/word.js:74-159) does to the document as a whole: it keeps the
 * store well formed, it makes one block per newline, and it puts the words it makes right
 * after the word it splits, in the order the code inserts them.  When the word holds no
 * newline before its last char, or its first separator is a newline, that order is the
 * order of the chars, so the document's chars and text stay the same.  Otherwise the
 * same-block words end up behind the words of the new blocks (word.js:147).
 */
module SplitFacts {
  import opened Wrappers
  import opened Util
  import opened Seqs
  import opened WordScan
  import opened Chars
  import opened Tree
  import opened Words

  // ---------------------------------------------------------------------------------
  // The store stays well formed.

  /** Each key of some list ls[j] gets the parent Some(m + j); the other keys keep theirs. */
  lemma {:induction false} AdoptAllAt<K>(pm: map<K, Option<nat>>, m: nat, ls: seq<seq<K>>)
    requires forall j, k :: 0 <= j < |ls| && k in ls[j] ==> k in pm
    ensures AdoptAll(pm, m, ls).Keys == pm.Keys
    ensures forall k :: k in pm ==>
      AdoptAll(pm, m, ls)[k] == pm[k] || (AdoptAll(pm, m, ls)[k].Some? && m <= AdoptAll(pm, m, ls)[k].value < m + |ls|)
    decreases |ls|
  {
    if ls != [] {
      var init := ls[..|ls| - 1];
      forall j, k | 0 <= j < |init| && k in init[j] ensures k in pm {
        assert init[j] == ls[j];
      }
      AdoptAllAt(pm, m, init);
      SetAllAt(AdoptAll(pm, m, init), ls[|ls| - 1], Option<nat>.Some(m + |ls| - 1));
    }
  }

  /** The word w keeps a list of chars of the store. */
  lemma {:induction false} KeepRunKeeps(h: Heap, w: WordId, first: seq<CharId>)
    requires WellFormed(h) && w in h.wordChars
    requires forall c: CharId :: c in first ==> c in h.charValue
    ensures WellFormed(h.(wordChars := h.wordChars[w := first]))
  {
  }

  /** Making a word for each run of chars of the store keeps it well formed. */
  lemma {:induction false} WithWordsKeeps(h: Heap, runs: seq<seq<CharId>>)
    requires WellFormed(h)
    requires forall j, c :: 0 <= j < |runs| && c in runs[j] ==> c in h.charValue
    ensures WellFormed(WithWords(h, runs))
  {
    WithWordsMaps(h, runs);
    WithWordsChildren(h, runs);
  }

  lemma {:induction false} WithWordsMaps(h: Heap, runs: seq<seq<CharId>>)
    requires WellFormed(h)
    requires forall j, c :: 0 <= j < |runs| && c in runs[j] ==> c in h.charValue
    ensures var r := WithWords(h, runs); KeysMatch(r) && Bounded(r) && ListsStored(r) && ParentsStored(r)
  {
    FillAt(h.wordChars, h.next, runs);
    NewParentsAt(h.wordParent, h.next, |runs|, None);
    AdoptAllAt(h.charParent, h.next, runs);
  }

  lemma {:induction false} WithWordsChildren(h: Heap, runs: seq<seq<CharId>>)
    requires WellFormed(h)
    requires forall j, c :: 0 <= j < |runs| && c in runs[j] ==> c in h.charValue
    ensures ChildrenStored(WithWords(h, runs))
  {
    var wc := Fill(h.wordChars, h.next, runs);
    FillAt(h.wordChars, h.next, runs);
    forall v, c | v in wc && c in wc[v] ensures c in h.charValue {
      if h.next <= v < h.next + |runs| {
        assert wc[v] == runs[v - h.next];
      }
    }
  }

  /** Chaining words of the store into block b keeps it well formed. */
  lemma {:induction false} ChainedKeeps(h: Heap, b: BlockId, w: WordId, ids: seq<WordId>)
    requires WellFormed(h) && b in h.blockWords
    requires forall v: WordId :: v in ids ==> v in h.wordChars
    ensures WellFormed(Chained(h, b, w, ids))
  {
    var r := Chained(h, b, w, ids);
    SetAllAt(h.wordParent, ids, Some(b));
    ChainElems(h.blockWords[b], w, ids);
    assert KeysMatch(r);
  }

  /** Making a block for each group of words of the store, chained in after b. */
  lemma {:induction false} WithBlocksKeeps(h: Heap, b: BlockId, gs: seq<seq<WordId>>)
    requires WellFormed(h)
    requires forall j, v :: 0 <= j < |gs| && v in gs[j] ==> v in h.wordChars
    ensures WellFormed(WithBlocks(h, b, gs))
  {
    WithBlocksMaps(h, b, gs);
    WithBlocksLists(h, b, gs);
    WithBlocksChildren(h, b, gs);
  }

  lemma {:induction false} WithBlocksMaps(h: Heap, b: BlockId, gs: seq<seq<WordId>>)
    requires WellFormed(h)
    requires forall j, v :: 0 <= j < |gs| && v in gs[j] ==> v in h.wordChars
    ensures var r := WithBlocks(h, b, gs); KeysMatch(r) && Bounded(r) && ParentsStored(r)
  {
    FillAt(h.blockWords, h.next, gs);
    NewParentsAt(h.blockAttached, h.next, |gs|, true);
    AdoptAllAt(h.wordParent, h.next, gs);
  }

  lemma {:induction false} WithBlocksLists(h: Heap, b: BlockId, gs: seq<seq<WordId>>)
    requires WellFormed(h)
    ensures ListsStored(WithBlocks(h, b, gs))
  {
    var nb := Ids(h.next, |gs|);
    FillAt(h.blockWords, h.next, gs);
    ChainElems(h.blocks, b, nb);
    forall x: BlockId | x in Chain(h.blocks, b, nb) ensures x in Fill(h.blockWords, h.next, gs) {
      assert x in h.blocks || x in nb;
    }
  }

  lemma {:induction false} WithBlocksChildren(h: Heap, b: BlockId, gs: seq<seq<WordId>>)
    requires WellFormed(h)
    requires forall j, v :: 0 <= j < |gs| && v in gs[j] ==> v in h.wordChars
    ensures ChildrenStored(WithBlocks(h, b, gs))
  {
    var bw := Fill(h.blockWords, h.next, gs);
    FillAt(h.blockWords, h.next, gs);
    forall x, v | x in bw && v in bw[x] ensures v in h.wordChars {
      if h.next <= x < h.next + |gs| {
        assert bw[x] == gs[x - h.next];
      }
    }
  }

  /** Appending words of the store to block b. */
  lemma {:induction false} AppendedKeeps(h: Heap, b: BlockId, ws: seq<WordId>)
    requires WellFormed(h) && b in h.blockWords
    requires forall v: WordId :: v in ws ==> v in h.wordChars
    ensures WellFormed(Appended(h, b, ws))
  {
    var r := Appended(h, b, ws);
    SetAllAt(h.wordParent, ws, Some(b));
    assert KeysMatch(r);
  }

  /** A char of a run is a char of the concatenation. */
  lemma {:induction false} ConcatHas<T>(rs: seq<seq<T>>, j: nat, x: T)
    requires j < |rs| && x in rs[j]
    ensures x in Concat(rs)
  {
    if j > 0 {
      ConcatHas(rs[1..], j - 1, x);
    }
  }

  /** The ids of the groups' words are the |Concat(gs)| ids from m on. */
  lemma {:induction false} IdGroupsRange(m: nat, gs: seq<seq<seq<CharId>>>)
    ensures forall j, v :: 0 <= j < |IdGroups(m, gs)| && v in IdGroups(m, gs)[j] ==> m <= v < m + |Concat(gs)|
    decreases |gs|
  {
    if gs != [] {
      var k := |gs[0]|;
      IdGroupsRange(m + k, gs[1..]);
      var r, rest := IdGroups(m, gs), IdGroups(m + k, gs[1..]);
      assert r == [Ids(m, k)] + rest;
      assert |Concat(gs)| == k + |Concat(gs[1..])|;
      forall j, v | 0 <= j < |r| && v in r[j] ensures m <= v < m + |Concat(gs)| {
        if j == 0 {
          var i :| 0 <= i < k && Ids(m, k)[i] == v;
        } else {
          assert r[j] == rest[j - 1];
        }
      }
    }
  }

  /** The runs of a split are made of chars of the word. */
  lemma {:induction false} RunsStored(h: Heap, w: WordId)
    requires WellFormed(h) && w in h.wordChars && PlanIn(h, w).Split?
    ensures forall c: CharId :: c in PlanIn(h, w).first ==> c in h.charValue
    ensures var runs := NewRuns(PlanIn(h, w));
      forall j, c :: 0 <= j < |runs| && c in runs[j] ==> c in h.charValue
  {
    var p, xs := PlanIn(h, w), h.wordChars[w];
    PlanIsGood(xs, KindIn(h.charValue));
    var runs := NewRuns(p);
    forall j, c | 0 <= j < |runs| && c in runs[j] ensures c in h.charValue {
      ConcatHas(runs, j, c);
      assert c in p.first + Concat(runs);
    }
    forall c: CharId | c in p.first ensures c in h.charValue {
      assert c in p.first + Concat(runs);
    }
  }

  /** The first half of a split keeps the store well formed. */
  lemma {:induction false} SplitRunsKeeps(h: Heap, w: WordId)
    requires WellFormed(h) && CanSplit(h, w) && PlanIn(h, w).Split?
    ensures WellFormed(SplitRuns(h, w))
  {
    var p := PlanIn(h, w);
    var runs := NewRuns(p);
    RunsStored(h, w);
    var h0 := h.(wordChars := h.wordChars[w := p.first]);
    KeepRunKeeps(h, w, p.first);
    WithWordsKeeps(h0, runs);
    var h1 := WithWords(h0, runs);
    FillAt(h0.wordChars, h.next, runs);
    ChainedKeeps(h1, h.wordParent[w].value, w, Ids(h.next, |p.same|));
  }

  /** The second half of a split keeps the store well formed. */
  lemma {:induction false} RegroupKeeps(h: Heap, b: BlockId, w: WordId, gs: seq<seq<WordId>>)
    requires WellFormed(h) && b in h.blockWords && gs != []
    requires forall j, v :: 0 <= j < |gs| && v in gs[j] ==> v in h.wordChars
    ensures WellFormed(Regroup(h, b, w, gs))
  {
    var h3 := WordsCut(h, b, w);
    WordsCutKeeps(h, b, w);
    WithBlocksKeeps(h3, b, gs);
    var h4 := WithBlocks(h3, b, gs);
    FillAt(h3.blockWords, h3.next, gs);
    var sib := CutAfter(h.blockWords[b], w).1;
    assert forall v: WordId :: v in sib ==> v in CutAfter(h.blockWords[b], w).0 + sib;
    AppendedKeeps(h4, LastBlock(h3, b, gs), sib);
  }

  /** `word.split()` keeps the store well formed. */
  lemma {:induction false} SplitKeeps(h: Heap, w: WordId)
    requires WellFormed(h) && CanSplit(h, w)
    ensures WellFormed(SplitEffect(h, w))
  {
    var p := PlanIn(h, w);
    if p.Split? {
      SplitRunsKeeps(h, w);
      SplitHalves(h, w);
      var h2, b, gs := SplitRuns(h, w), h.wordParent[w].value, SplitGroups(h, w);
      if gs != [] {
        SplitGroupsStored(h, w);
        RegroupKeeps(h2, b, w, gs);
      }
    }
  }

  /** The words of the new blocks are words the first half made. */
  lemma {:induction false} SplitGroupsStored(h: Heap, w: WordId)
    requires WellFormed(h) && CanSplit(h, w) && PlanIn(h, w).Split?
    ensures var gs, h2 := SplitGroups(h, w), SplitRuns(h, w);
      forall j, v :: 0 <= j < |gs| && v in gs[j] ==> v in h2.wordChars
  {
    var p := PlanIn(h, w);
    SplitRunsChars(h, w);
    SplitGroupsIds(h, w);
    GroupsInFill(h.wordChars[w := p.first], h.next, NewRuns(p), p.same, p.groups, SplitGroups(h, w));
  }

  lemma {:induction false} SplitGroupsIds(h: Heap, w: WordId)
    requires w in h.wordChars && PlanIn(h, w).Split?
    ensures SplitGroups(h, w) == IdGroups(h.next + |PlanIn(h, w).same|, PlanIn(h, w).groups)
  {
  }

  /** The chars of the words after the first half: w keeps its first run, the new words the others. */
  lemma {:induction false} SplitRunsChars(h: Heap, w: WordId)
    requires CanSplit(h, w) && PlanIn(h, w).Split?
    ensures SplitRuns(h, w).wordChars == Fill(h.wordChars[w := PlanIn(h, w).first], h.next, NewRuns(PlanIn(h, w)))
  {
  }

  lemma {:induction false} GroupsInFill(wc: map<WordId, seq<CharId>>, m: nat, runs: seq<seq<CharId>>, same: seq<seq<CharId>>,
                     groups: seq<seq<seq<CharId>>>, gs: seq<seq<WordId>>)
    requires runs == same + Concat(groups) && gs == IdGroups(m + |same|, groups)
    ensures forall j, v :: 0 <= j < |gs| && v in gs[j] ==> v in Fill(wc, m, runs)
  {
    IdGroupsRange(m + |same|, groups);
    FillAt(wc, m, runs);
    var k := |Concat(groups)|;
    assert |runs| == |same| + k;
    forall j, v | 0 <= j < |gs| && v in gs[j] ensures v in Fill(wc, m, runs) {
      assert m + |same| <= v < m + |same| + k;
    }
  }
}
