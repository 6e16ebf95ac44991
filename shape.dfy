/**
 * The shape of a Document's tree that its operations take for granted: no block is listed
 * twice, no word shows up twice among the document's words, every word of a block has that
 * block as its parent (word.js:94-96, block.js:40-49) and every block of the document is
 * attached to it (word.js:132-140).  The operations of the core keep it.
 */
module Shape {
  import opened Wrappers
  import opened Seqs
  import opened WordScan
  import opened Tree
  import opened Words
  import opened SplitFacts
  import opened WordOrder
  import opened SplitText
  import opened Documents
  import opened Sync

  /**
   * The shape of the tree the source's operations rely on: no block or word shows up
   * twice, every word of a block has that block as its parent, and every block of the
   * document has the document as its parent.
   */
  ghost predicate Shaped(h: Heap)
  {
    && WellFormed(h) && Distinct(h.blocks) && Distinct(DocWords(h.blockWords, h.blocks))
    && (forall b: BlockId, v: WordId :: b in h.blocks && v in h.blockWords[b] ==> v in h.wordParent && h.wordParent[v] == Some(b))
    && (forall b: BlockId :: b in h.blocks ==> h.blockAttached[b])
  }

  /** Lists no two of which share an element. */
  ghost predicate Disjoint(ls: seq<seq<CharId>>)
  {
    forall j, k, x: CharId :: 0 <= j < k < |ls| && x in ls[j] ==> x !in ls[k]
  }

  /** With disjoint lists, each element of ls[j] gets the parent m + j, and the others keep theirs. */
  lemma {:induction false} AdoptAllOwners(pm: map<CharId, Option<nat>>, m: nat, ls: seq<seq<CharId>>)
    requires Disjoint(ls)
    ensures forall j, x: CharId :: 0 <= j < |ls| && x in ls[j] ==> x in AdoptAll(pm, m, ls) && AdoptAll(pm, m, ls)[x] == Some(m + j)
    ensures forall x: CharId :: x in pm && (forall j :: 0 <= j < |ls| ==> x !in ls[j]) ==> x in AdoptAll(pm, m, ls) && AdoptAll(pm, m, ls)[x] == pm[x]
    decreases |ls|
  {
    if ls != [] {
      var init, last := ls[..|ls| - 1], ls[|ls| - 1];
      assert Disjoint(init) by {
        forall j, k, x: CharId | 0 <= j < k < |init| && x in init[j] ensures x !in init[k] {
          assert init[j] == ls[j] && init[k] == ls[k];
        }
      }
      AdoptAllOwners(pm, m, init);
      SetAllAt(AdoptAll(pm, m, init), last, Option<nat>.Some(m + |ls| - 1));
      forall j, x: CharId | 0 <= j < |ls| - 1 && x in ls[j] ensures x !in last {
        assert init[j] == ls[j];
      }
      forall x: CharId | x in pm && (forall j :: 0 <= j < |ls| ==> x !in ls[j])
        ensures forall j :: 0 <= j < |init| ==> x !in init[j]
      {
        forall j | 0 <= j < |init| ensures x !in init[j] {
          assert init[j] == ls[j];
        }
      }
    }
  }

  /** The runs of a list without repeats share no char with each other or with the part before them. */
  lemma {:induction false} DistinctRuns(first: seq<CharId>, runs: seq<seq<CharId>>)
    requires Distinct(first + Concat(runs))
    ensures Disjoint(runs)
    ensures forall j, x: CharId :: 0 <= j < |runs| && x in runs[j] ==> x !in first
    decreases |runs|
  {
    if runs != [] {
      var rest := runs[1..];
      assert first + Concat(runs) == (first + runs[0]) + Concat(rest);
      DistinctRuns(first + runs[0], rest);
      forall x: CharId | x in runs[0] ensures x !in first {
        DistinctApart(first, runs[0], Concat(rest), x);
      }
      forall j, x: CharId | 0 <= j < |runs| && x in runs[j] ensures x !in first {
        if j > 0 {
          assert rest[j - 1] == runs[j];
          assert x !in first + runs[0];
        }
      }
      forall j, k, x: CharId | 0 <= j < k < |runs| && x in runs[j] ensures x !in runs[k] {
        assert rest[k - 1] == runs[k];
        if j > 0 {
          assert rest[j - 1] == runs[j];
        } else {
          assert x in first + runs[0];
        }
      }
    }
  }

  /** Putting new, distinct chars between two halves of a list without repeats keeps it without repeats. */
  lemma {:induction false} DistinctInsert(x: seq<nat>, ids: seq<nat>, y: seq<nat>)
    requires Distinct(x + y) && Distinct(ids) && forall c: nat :: c in ids ==> c !in x + y
    ensures Distinct(x + ids + y)
  {
    var s, n, m := x + ids + y, |x|, |ids|;
    forall i, k | 0 <= i < k < |s| ensures s[i] != s[k] {
      if k < n {
        assert s[i] == (x + y)[i] && s[k] == (x + y)[k];
      } else if i >= n + m {
        assert s[i] == (x + y)[i - m] && s[k] == (x + y)[k - m];
      } else if n <= i && k < n + m {
        assert s[i] == ids[i - n] && s[k] == ids[k - n];
      } else if i < n && k >= n + m {
        assert s[i] == (x + y)[i] && s[k] == (x + y)[k - m];
      } else if i < n {
        assert s[k] == ids[k - n] && s[i] == (x + y)[i];
        assert s[k] in ids && s[i] in x + y;
      } else {
        assert s[i] == ids[i - n] && s[k] == (x + y)[k - m];
        assert s[i] in ids && s[k] in x + y;
      }
    }
  }

  /** `new Document()` has the shape the operations rely on. */
  lemma {:induction false} EmptyDocumentShaped()
    ensures Shaped(EmptyDocument())
  {
    EmptyDocumentFacts();
    assert DocWords(map[0 := [2]], [0]) == [2] by {
      assert [0][..0] == [];
    }
  }

  // ---------------------------------------------------------------------------------
  // Lists of words and blocks

  /** A fresh run put right after w in a list without repeats keeps it without repeats. */
  lemma {:induction false} InsertAfterDistinct(s: seq<nat>, w: nat, xs: seq<nat>)
    requires w in s && Distinct(s) && Distinct(xs) && forall x: nat :: x in xs ==> x !in s
    ensures var i := IndexOf(s, w); 0 <= i && InsertAfter(s, Some(w), xs) == s[..i + 1] + xs + s[i + 1..]
    ensures Distinct(InsertAfter(s, Some(w), xs))
  {
    var i := IndexOf(s, w);
    InsertAfterFound(s, w, xs);
    assert s[..i + 1] + s[i + 1..] == s;
    DistinctInsert(s[..i + 1], xs, s[i + 1..]);
  }

  /** No word of the document sits in two of its blocks. */
  lemma {:induction false} ListsApart(bw: map<BlockId, seq<WordId>>, bs: seq<BlockId>, x: BlockId, y: BlockId, v: WordId)
    requires (forall z: BlockId :: z in bs ==> z in bw) && Distinct(bs) && Distinct(DocWords(bw, bs))
    requires x in bs && y in bs && x != y && v in bw[x]
    ensures v !in bw[y]
    decreases |bs|
  {
    var init, last := bs[..|bs| - 1], bs[|bs| - 1];
    assert bs == init + [last];
    DistinctHalves(init, [last]);
    DistinctHalves(DocWords(bw, init), bw[last]);
    if x == last {
      if v in bw[y] {
        DocWordsHas(bw, init, y, v);
        DistinctFront(DocWords(bw, init), bw[last], v);
      }
    } else if y == last {
      DocWordsHas(bw, init, x, v);
      if v in bw[y] {
        DistinctFront(DocWords(bw, init), bw[last], v);
      }
    } else {
      ListsApart(bw, init, x, y, v);
    }
  }

  /** The list of a block of the document is without repeats. */
  lemma {:induction false} ListDistinct(bw: map<BlockId, seq<WordId>>, bs: seq<BlockId>, x: BlockId)
    requires (forall z: BlockId :: z in bs ==> z in bw) && Distinct(DocWords(bw, bs)) && x in bs
    ensures Distinct(bw[x])
    decreases |bs|
  {
    var init, last := bs[..|bs| - 1], bs[|bs| - 1];
    DistinctHalves(DocWords(bw, init), bw[last]);
    if x != last {
      assert x in init by {
        assert bs == init + [last];
      }
      ListDistinct(bw, init, x);
    }
  }

  // ---------------------------------------------------------------------------------
  // Operations that leave the blocks and their words alone

  /** A well-formed store with the same blocks, lists and parents of words has the same shape. */
  lemma {:induction false} ShapedFrame(h: Heap, r: Heap)
    requires Shaped(h) && WellFormed(r)
    requires r.blocks == h.blocks && r.blockWords == h.blockWords
    requires r.wordParent == h.wordParent && r.blockAttached == h.blockAttached
    ensures Shaped(r)
  {
  }

  /** `removeCharsAt` (document.js:107-117) keeps the shape: it only changes lists of chars. */
  lemma {:induction false} RemoveCharsAtShaped(h: Heap, index: int, count: int)
    requires Synced(h) && Shaped(h)
    ensures CanRemoveCharsAt(h, index, count) && Shaped(RemoveCharsAtEffect(h, index, count))
  {
    RemoveCharsAtSynced(h, index, count);
    if 0 <= index < |h.chars| {
      var k := Taken(|h.chars|, index, count);
      var h1, removed := h.(chars := h.chars[..index] + h.chars[index + k..]), h.chars[index..index + k];
      RemoveCharsAtSteps(h, index, count, h1, removed);
      RemoveEachShaped(h, h1, removed);
    }
  }

  /** Taking chars out of their words keeps the shape: no block, word list or word parent changes. */
  lemma {:induction false} RemoveEachShaped(h: Heap, h1: Heap, cs: seq<CharId>)
    requires Shaped(h) && Parented(h1, cs) && WellFormed(RemoveEach(h1, cs))
    requires h1.blocks == h.blocks && h1.blockWords == h.blockWords
    requires h1.wordParent == h.wordParent && h1.blockAttached == h.blockAttached
    ensures Shaped(RemoveEach(h1, cs))
  {
    var r := RemoveEach(h1, cs);
    assert r.blocks == h1.blocks && r.blockWords == h1.blockWords && r.wordParent == h1.wordParent && r.blockAttached == h1.blockAttached;
    ShapedFrame(h, r);
  }

  /** `execAction` (document.js:31-49) keeps the shape: it only changes the values of chars. */
  lemma {:induction false} ExecActionShaped(h: Heap, action: string, start: int, end: int)
    requires Synced(h) && Shaped(h)
    ensures CanExecAction(h, start, end) && Shaped(ExecActionEffect(h, action, start, end))
  {
    ExecActionSynced(h, action, start, end);
    var r := ExecActionEffect(h, action, start, end);
    assert r.(charValue := h.charValue) == h;
    ShapedFrame(h, r);
  }

  // ---------------------------------------------------------------------------------
  // Fresh words listed right after a word of the document (block.js:40-46, word.js:128-130)

  /** The blocks of hp are those of h, with xs listed after p in b and given b as parent over the parents pm. */
  ghost predicate ListedAfter(h: Heap, hp: Heap, b: BlockId, p: WordId, xs: seq<WordId>, pm: map<WordId, Option<BlockId>>)
    requires b in h.blockWords
  {
    && hp.blocks == h.blocks && hp.blockAttached == h.blockAttached
    && hp.blockWords == h.blockWords[b := InsertAfter(h.blockWords[b], Some(p), xs)]
    && hp.wordParent == SetAll(pm, xs, Some(b))
  }

  /**
   * Listing fresh words xs right after p in p's block b, and making b their parent, keeps the
   * shape; pm is the map of parents before, which agrees with h's on h's words.
   */
  lemma {:induction false} ListedAfterShaped(h: Heap, hp: Heap, b: BlockId, p: WordId, xs: seq<WordId>, pm: map<WordId, Option<BlockId>>)
    requires Shaped(h) && WordOrder.Placed(h, p) && h.wordParent[p] == Some(b) && WellFormed(hp)
    requires Distinct(xs) && forall x: WordId :: x in xs ==> x !in h.wordChars
    requires forall u: WordId :: u in h.wordParent ==> u in pm && pm[u] == h.wordParent[u]
    requires ListedAfter(h, hp, b, p, xs, pm)
    ensures Shaped(hp)
    ensures forall u: WordId :: u in DocWords(hp.blockWords, hp.blocks) ==> u in h.wordChars || u in xs
  {
    var bw, bs := h.blockWords, h.blocks;
    assert b in bw;
    assert hp.blocks == bs && hp.blockAttached == h.blockAttached && hp.blockWords == bw[b := InsertAfter(bw[b], Some(p), xs)];
    assert hp.wordParent == SetAll(pm, xs, Some(b));
    ListedAfterOrder(bw, bs, h.wordChars, b, p, xs);
    assert forall z: BlockId, u: WordId :: z in bs && u in bw[z] ==> u in h.wordChars;
    ListedAfterParents(bw, bs, h.wordParent, b, p, xs, pm);
  }

  /** Fresh words listed after p sit right after p among the document's words, which stay without repeats. */
  lemma {:induction false} ListedAfterOrder(bw: map<BlockId, seq<WordId>>, bs: seq<BlockId>, wc: map<WordId, seq<CharId>>,
                                            b: BlockId, p: WordId, xs: seq<WordId>)
    requires BlocksIn(bw, wc, bs) && Distinct(bs) && Distinct(DocWords(bw, bs)) && b in bs && p in bw[b]
    requires Distinct(xs) && forall x: WordId :: x in xs ==> x !in wc
    ensures var bw' := bw[b := InsertAfter(bw[b], Some(p), xs)];
      && Distinct(DocWords(bw', bs))
      && forall u: WordId :: u in DocWords(bw', bs) ==> u in wc || u in xs
  {
    var dw := DocWords(bw, bs);
    BlocksCharsIsWords(bw, wc, bs);
    DocWordsHas(bw, bs, b, p);
    ChainedOrder(bw, bs, b, p, xs);
    InsertAfterDistinct(dw, p, xs);
    InsertAfterMembers(dw, Some(p), xs);
  }

  lemma {:induction false} ListedAfterParents(bw: map<BlockId, seq<WordId>>, bs: seq<BlockId>, wp: map<WordId, Option<BlockId>>,
                                              b: BlockId, p: WordId, xs: seq<WordId>, pm: map<WordId, Option<BlockId>>)
    requires (forall z: BlockId :: z in bs ==> z in bw) && b in bs && p in bw[b]
    requires forall z: BlockId, u: WordId :: z in bs && u in bw[z] ==> u in wp && wp[u] == Some(z) && u !in xs
    requires forall u: WordId :: u in wp ==> u in pm && pm[u] == wp[u]
    ensures var bw', pm' := bw[b := InsertAfter(bw[b], Some(p), xs)], SetAll(pm, xs, Some(b));
      forall z: BlockId, u: WordId :: z in bs && u in bw'[z] ==> u in pm' && pm'[u] == Some(z)
  {
    var bw', pm' := bw[b := InsertAfter(bw[b], Some(p), xs)], SetAll(pm, xs, Some(b));
    SetAllAt(pm, xs, Some(b));
    InsertAfterFound(bw[b], p, xs);
    var i := IndexOf(bw[b], p);
    assert bw[b][..i + 1] + bw[b][i + 1..] == bw[b];
    forall z: BlockId, u: WordId | z in bs && u in bw'[z] ensures u in pm' && pm'[u] == Some(z) {
      if u !in xs {
        if z == b {
          assert u in bw[b][..i + 1] || u in bw[b][i + 1..];
        }
        assert u in bw[z];
      }
    }
  }

  /** One word listed: the parent map with one more entry. */
  lemma {:induction false} SetOne(pm: map<WordId, Option<BlockId>>, v: WordId, b: BlockId)
    ensures SetAll(pm, [v], Some(b)) == pm[v := Some(b)]
  {
    assert [v][1..] == [];
  }

  /** Listing a fresh word v after p in p's block keeps the shape, and gives v that block as parent. */
  lemma {:induction false} NewWordShaped(h: Heap, hp: Heap, b: BlockId, p: WordId, v: WordId)
    requires Shaped(h) && WordOrder.Placed(h, p) && h.wordParent[p] == Some(b) && WellFormed(hp)
    requires forall x: WordId :: x in h.wordChars ==> x < v
    requires hp.blocks == h.blocks && hp.blockAttached == h.blockAttached
    requires hp.blockWords == h.blockWords[b := InsertAfter(h.blockWords[b], Some(p), [v])]
    requires hp.wordParent == h.wordParent[v := Some(b)]
    ensures Shaped(hp)
  {
    SetOne(h.wordParent, v, b);
    ListedAfterShaped(h, hp, b, p, [v], h.wordParent);
  }

  // ---------------------------------------------------------------------------------
  // The split (word.js:74-159)

  /** The first half of the split: the same-block words land after w, every new word is fresh. */
  lemma {:induction false} SplitRunsShaped(h: Heap, w: WordId)
    requires Shaped(h) && CanSplit(h, w) && PlanIn(h, w).Split? && WordOrder.Placed(h, w)
    ensures var h2 := SplitRuns(h, w);
      && Shaped(h2) && h2.blocks == h.blocks && h2.next == h.next + |NewRuns(PlanIn(h, w))|
      && forall v: WordId :: v in DocWords(h2.blockWords, h2.blocks) ==> v < h.next + |PlanIn(h, w).same|
  {
    var p, b := PlanIn(h, w), h.wordParent[w].value;
    var n, N := |p.same|, |NewRuns(p)|;
    var S, h2 := Ids(h.next, n), SplitRuns(h, w);
    var pm := NewParents(h.wordParent, h.next, N, None);
    SplitRunsKeeps(h, w);
    SplitRunsFields(h, w);
    FreshWordIds(h, n, N);
    ListedAfterShaped(h, h2, b, w, S, pm);
  }

  /** The ids handed out from `next` on are new words, and the parents made for them keep every old one. */
  lemma {:induction false} FreshWordIds(h: Heap, n: nat, N: nat)
    requires WellFormed(h)
    ensures forall v: WordId :: v in h.wordChars ==> v < h.next
    ensures Distinct(Ids(h.next, n)) && forall x: WordId :: x in Ids(h.next, n) ==> x !in h.wordChars && x < h.next + n
    ensures var pm := NewParents(h.wordParent, h.next, N, None);
      forall u: WordId :: u in h.wordParent ==> u in pm && pm[u] == h.wordParent[u]
  {
    IdsDistinct(h.next, n);
    IdsBelow(h.next, n);
    NewParentsAt(h.wordParent, h.next, N, None);
  }

  /** What the first half of the split makes of the lists and parents. */
  lemma {:induction false} SplitRunsFields(h: Heap, w: WordId)
    requires WellFormed(h) && CanSplit(h, w) && PlanIn(h, w).Split?
    ensures var p, b := PlanIn(h, w), h.wordParent[w].value;
      ListedAfter(h, SplitRuns(h, w), b, w, Ids(h.next, |p.same|), NewParents(h.wordParent, h.next, |NewRuns(p)|, None))
  {
    var p, b := PlanIn(h, w), h.wordParent[w].value;
    StoredBelow(h, b);
    FreshChain(h.blockWords[b], w, h.next, |p.same|);
  }

  /** What the second half of the split makes of the blocks, their lists and parents. */
  lemma {:induction false} RegroupFields(h2: Heap, b: BlockId, w: WordId, gs: seq<seq<WordId>>)
    requires b in h2.blockWords && gs != []
    ensures var r, cut := Regroup(h2, b, w, gs), CutAfter(h2.blockWords[b], w);
      && r.blocks == Chain(h2.blocks, b, Ids(h2.next, |gs|))
      && r.blockWords == Fill(h2.blockWords[b := cut.0], h2.next, Tack(gs, cut.1))
      && r.wordParent == SetAll(AdoptAll(h2.wordParent, h2.next, gs), cut.1, Some(h2.next + |gs| - 1))
      && r.blockAttached == NewParents(h2.blockAttached, h2.next, |gs|, true)
  {
    RegroupLists(h2, b, w, gs);
    RegroupTags(h2, b, w, gs);
  }

  /** The second half of the split gives the grouped words their new blocks and the cut-off words the last one. */
  lemma {:induction false} RegroupTags(h2: Heap, b: BlockId, w: WordId, gs: seq<seq<WordId>>)
    requires b in h2.blockWords && gs != []
    ensures var r, cut := Regroup(h2, b, w, gs), CutAfter(h2.blockWords[b], w);
      && r.wordParent == SetAll(AdoptAll(h2.wordParent, h2.next, gs), cut.1, Some(h2.next + |gs| - 1))
      && r.blockAttached == NewParents(h2.blockAttached, h2.next, |gs|, true)
  {
    var cut, h3 := CutAfter(h2.blockWords[b], w), WordsCut(h2, b, w);
    var h4, last := WithBlocks(h3, b, gs), LastBlock(h3, b, gs);
    assert h4.wordParent == AdoptAll(h2.wordParent, h2.next, gs) && h4.blockAttached == NewParents(h2.blockAttached, h2.next, |gs|, true);
    assert last == h2.next + |gs| - 1;
    assert Regroup(h2, b, w, gs) == Appended(h4, last, cut.1);
  }

  /** A word of an old block stays there, with its parent. */
  lemma {:induction false} OldWordParent(bw: map<BlockId, seq<WordId>>, bs: seq<BlockId>, wp: map<WordId, Option<BlockId>>,
                                         b: BlockId, cut: (seq<WordId>, seq<WordId>), m: nat, gs: seq<seq<WordId>>, x: BlockId, v: WordId)
    requires (forall z: BlockId :: z in bs ==> z in bw) && Distinct(bs) && Distinct(DocWords(bw, bs))
    requires forall z: BlockId, u: WordId :: z in bs && u in bw[z] ==> u in wp && wp[u] == Some(z)
    requires b in bs && cut.0 + cut.1 == bw[b] && gs != [] && Disjoint(gs)
    requires forall j, u :: 0 <= j < |gs| && u in gs[j] ==> u !in DocWords(bw, bs)
    requires x in bs && v in (if x == b then cut.0 else bw[x])
    ensures var pm := SetAll(AdoptAll(wp, m, gs), cut.1, Some(m + |gs| - 1)); v in pm && pm[v] == Some(x)
  {
    assert v in bw[x] && v !in cut.1 by {
      if x == b {
        ListDistinct(bw, bs, b);
        if v in cut.1 {
          DistinctFront(cut.0, cut.1, v);
        }
      } else {
        ListsApart(bw, bs, x, b, v);
      }
    }
    DocWordsHas(bw, bs, x, v);
    AdoptAllOwners(wp, m, gs);
    SetAllAt(AdoptAll(wp, m, gs), cut.1, Some(m + |gs| - 1));
  }

  /** A word of the j-th new block has that block as parent. */
  lemma {:induction false} NewBlockParent(bw: map<BlockId, seq<WordId>>, bs: seq<BlockId>, wp: map<WordId, Option<BlockId>>,
                                          b: BlockId, cut: (seq<WordId>, seq<WordId>), m: nat, gs: seq<seq<WordId>>, j: nat, v: WordId)
    requires (forall z: BlockId :: z in bs ==> z in bw) && b in bs && cut.0 + cut.1 == bw[b] && gs != [] && Disjoint(gs)
    requires forall k, u :: 0 <= k < |gs| && u in gs[k] ==> u !in DocWords(bw, bs)
    requires j < |gs| && v in Tack(gs, cut.1)[j]
    ensures var pm := SetAll(AdoptAll(wp, m, gs), cut.1, Some(m + |gs| - 1)); v in pm && pm[v] == Some(m + j)
  {
    var k := |gs|;
    AdoptAllOwners(wp, m, gs);
    SetAllAt(AdoptAll(wp, m, gs), cut.1, Some(m + k - 1));
    assert Tack(gs, cut.1)[j] == if j < k - 1 then gs[j] else gs[j] + cut.1;
    if v in cut.1 {
      if j < k - 1 {
        DocWordsHas(bw, bs, b, v);
      }
    } else {
      assert v in gs[j];
    }
  }

  /**
   * The second half of the split, on the store r it makes: the new blocks come right after
   * w's block, attached, each the parent of its words, and the words after w move to the last.
   */
  lemma {:induction false} RegroupShaped(h2: Heap, r: Heap, b: BlockId, w: WordId, gs: seq<seq<WordId>>, cut: (seq<WordId>, seq<WordId>))
    requires Shaped(h2) && WellFormed(r) && Distinct(DocWords(r.blockWords, r.blocks))
    requires b in h2.blocks && gs != [] && Disjoint(gs) && cut.0 + cut.1 == h2.blockWords[b]
    requires forall j, v :: 0 <= j < |gs| && v in gs[j] ==> v !in DocWords(h2.blockWords, h2.blocks)
    requires r.blocks == InsertAfter(h2.blocks, Some(b), Ids(h2.next, |gs|))
    requires r.blockWords == Fill(h2.blockWords[b := cut.0], h2.next, Tack(gs, cut.1))
    requires r.wordParent == SetAll(AdoptAll(h2.wordParent, h2.next, gs), cut.1, Some(h2.next + |gs| - 1))
    requires r.blockAttached == NewParents(h2.blockAttached, h2.next, |gs|, true)
    ensures Shaped(r)
  {
    NewBlocksAttached(h2, r, b, |gs|);
    RegroupParents(h2, r, b, w, gs, cut);
  }

  /** k fresh blocks put after b, attached: the document's blocks stay without repeats and attached. */
  lemma {:induction false} NewBlocksAttached(h2: Heap, r: Heap, b: BlockId, k: nat)
    requires Shaped(h2) && b in h2.blocks
    requires r.blocks == InsertAfter(h2.blocks, Some(b), Ids(h2.next, k))
    requires r.blockAttached == NewParents(h2.blockAttached, h2.next, k, true)
    ensures Distinct(r.blocks) && (forall x: BlockId :: x in r.blocks ==> x in r.blockAttached && r.blockAttached[x])
    ensures forall x: BlockId :: x in r.blocks ==> (x < h2.next && x in h2.blocks) || h2.next <= x < h2.next + k
  {
    StoredBelow(h2, b);
    BlocksAfter(h2.blocks, b, h2.next, k);
    NewParentsAt(h2.blockAttached, h2.next, k, true);
  }

  /** Fresh blocks put after b: the list stays without repeats, and holds the old blocks and the new ones. */
  lemma {:induction false} BlocksAfter(bs: seq<BlockId>, b: BlockId, m: nat, k: nat)
    requires b in bs && Distinct(bs) && forall x: BlockId :: x in bs ==> x < m
    ensures var r := InsertAfter(bs, Some(b), Ids(m, k));
      && Distinct(r) && forall x: BlockId :: x in r ==> (x < m && x in bs) || m <= x < m + k
  {
    var ids := Ids(m, k);
    IdsDistinct(m, k);
    InsertAfterDistinct(bs, b, ids);
    var i := IndexOf(bs, b);
    assert bs[..i + 1] + bs[i + 1..] == bs;
    forall x: BlockId | x in InsertAfter(bs, Some(b), ids) ensures (x < m && x in bs) || m <= x < m + k {
      if x !in ids {
        assert x in bs[..i + 1] || x in bs[i + 1..];
        assert x in bs;
      } else {
        assert m <= x < m + k;
      }
    }
  }

  lemma {:induction false} RegroupParents(h2: Heap, r: Heap, b: BlockId, w: WordId, gs: seq<seq<WordId>>, cut: (seq<WordId>, seq<WordId>))
    requires Shaped(h2) && b in h2.blocks && gs != [] && Disjoint(gs) && cut.0 + cut.1 == h2.blockWords[b]
    requires forall j, v :: 0 <= j < |gs| && v in gs[j] ==> v !in DocWords(h2.blockWords, h2.blocks)
    requires forall x: BlockId :: x in r.blocks ==> (x < h2.next && x in h2.blocks) || h2.next <= x < h2.next + |gs|
    requires r.blockWords == Fill(h2.blockWords[b := cut.0], h2.next, Tack(gs, cut.1))
    requires r.wordParent == SetAll(AdoptAll(h2.wordParent, h2.next, gs), cut.1, Some(h2.next + |gs| - 1))
    ensures forall x: BlockId, v: WordId :: x in r.blocks && x in r.blockWords && v in r.blockWords[x] ==> v in r.wordParent && r.wordParent[v] == Some(x)
  {
    forall x: BlockId, v: WordId | x in r.blocks && x in r.blockWords && v in r.blockWords[x] ensures v in r.wordParent && r.wordParent[v] == Some(x) {
      RegroupParent(h2, r.blockWords, b, gs, cut, x, v);
    }
  }

  /** One word of one block of the regrouped store, and the parent the regrouping gives it. */
  lemma {:induction false} RegroupParent(h2: Heap, rbw: map<BlockId, seq<WordId>>, b: BlockId, gs: seq<seq<WordId>>,
                                         cut: (seq<WordId>, seq<WordId>), x: BlockId, v: WordId)
    requires Shaped(h2) && b in h2.blocks && gs != [] && Disjoint(gs) && cut.0 + cut.1 == h2.blockWords[b]
    requires forall j, v :: 0 <= j < |gs| && v in gs[j] ==> v !in DocWords(h2.blockWords, h2.blocks)
    requires (x < h2.next && x in h2.blocks) || h2.next <= x < h2.next + |gs|
    requires rbw == Fill(h2.blockWords[b := cut.0], h2.next, Tack(gs, cut.1)) && x in rbw && v in rbw[x]
    ensures var pm := SetAll(AdoptAll(h2.wordParent, h2.next, gs), cut.1, Some(h2.next + |gs| - 1)); v in pm && pm[v] == Some(x)
  {
    var bw, bs, m := h2.blockWords, h2.blocks, h2.next;
    FillAt(bw[b := cut.0], m, Tack(gs, cut.1));
    if x < m {
      OldWordParent(bw, bs, h2.wordParent, b, cut, m, gs, x, v);
    } else {
      NewBlockParent(bw, bs, h2.wordParent, b, cut, m, gs, x - m, v);
    }
  }

  /** The words of the new blocks of a split are fresh and told apart. */
  lemma {:induction false} SplitGroupsFresh(h: Heap, w: WordId)
    requires w in h.wordChars && PlanIn(h, w).Split?
    ensures Disjoint(SplitGroups(h, w))
    ensures forall j, v :: 0 <= j < |SplitGroups(h, w)| && v in SplitGroups(h, w)[j] ==> h.next + |PlanIn(h, w).same| <= v
  {
    SplitGroupsIds(h, w);
    GroupsFresh(h.next + |PlanIn(h, w).same|, PlanIn(h, w).groups, SplitGroups(h, w));
  }

  lemma {:induction false} GroupsFresh(m: nat, groups: seq<seq<seq<CharId>>>, gs: seq<seq<WordId>>)
    requires gs == IdGroups(m, groups)
    ensures Disjoint(gs) && forall j, v :: 0 <= j < |gs| && v in gs[j] ==> m <= v
  {
    IdGroupsFresh(m, groups);
  }

  /** The words of the new blocks are fresh, told apart, and come after the same-block words. */
  lemma {:induction false} IdGroupsFresh(m: nat, groups: seq<seq<seq<CharId>>>)
    ensures Disjoint(IdGroups(m, groups))
    ensures Concat(IdGroups(m, groups)) == Ids(m, |Concat(groups)|)
    ensures forall j, v :: 0 <= j < |IdGroups(m, groups)| && v in IdGroups(m, groups)[j] ==> m <= v
  {
    var gs := IdGroups(m, groups);
    ConcatIdGroups(m, groups);
    IdGroupsRange(m, groups);
    IdsDistinct(m, |Concat(groups)|);
    assert [] + Concat(gs) == Concat(gs);
    DistinctRuns([], gs);
  }

  /** The new-block words then the same-block words: fresh ids without repeats. */
  lemma {:induction false} SwappedIds(a: nat, n: nat, k: nat)
    ensures Distinct(Ids(a + n, k) + Ids(a, n))
  {
    IdsDistinct(a + n, k);
    IdsDistinct(a, n);
    assert [] + Ids(a, n) == Ids(a, n);
    DistinctInsert([], Ids(a + n, k), Ids(a, n));
    assert [] + Ids(a + n, k) + Ids(a, n) == Ids(a + n, k) + Ids(a, n);
  }

  /** After the whole split the document's words are without repeats. */
  lemma {:induction false} SplitOrderDistinct(h: Heap, w: WordId)
    requires CanSplit(h, w) && PlanIn(h, w).Split? && WordOrder.Placed(h, w)
    ensures var r := SplitEffect(h, w); WellFormed(r) && Distinct(DocWords(r.blockWords, r.blocks))
  {
    var dw := DocWords(h.blockWords, h.blocks);
    SplitWordOrder(h, w);
    SplitOrderFresh(h, w);
    DocWordsBelow(h);
    DocWordsHas(h.blockWords, h.blocks, h.wordParent[w].value, w);
    FreshAfterDistinct(dw, w, SplitOrder(h, w), h.next);
  }

  /** The words of a well-formed document are ids handed out before `next`. */
  lemma {:induction false} DocWordsBelow(h: Heap)
    requires WellFormed(h)
    ensures forall v: WordId :: v in DocWords(h.blockWords, h.blocks) ==> v in h.wordChars && v < h.next
  {
    BlocksCharsIsWords(h.blockWords, h.wordChars, h.blocks);
  }

  /** The words a split makes are fresh ids without repeats. */
  lemma {:induction false} SplitOrderFresh(h: Heap, w: WordId)
    requires w in h.wordChars && PlanIn(h, w).Split?
    ensures Distinct(SplitOrder(h, w)) && forall x: WordId :: x in SplitOrder(h, w) ==> h.next <= x
  {
    var p := PlanIn(h, w);
    var n := |p.same|;
    SplitOrderIds(h, w);
    SwappedIds(h.next, n, |Concat(p.groups)|);
    IdsDistinct(h.next + n, |Concat(p.groups)|);
    IdsDistinct(h.next, n);
  }

  /** The words the split makes, in document order: the new-block words, then the same-block words. */
  lemma {:induction false} SplitOrderIds(h: Heap, w: WordId)
    requires w in h.wordChars && PlanIn(h, w).Split?
    ensures var p := PlanIn(h, w);
      SplitOrder(h, w) == Ids(h.next + |p.same|, |Concat(p.groups)|) + Ids(h.next, |p.same|)
  {
    var p := PlanIn(h, w);
    SplitGroupsIds(h, w);
    ConcatIdGroups(h.next + |p.same|, p.groups);
  }

  /** Ids from lo on, put after w in a list of ids below lo, keep it without repeats. */
  lemma {:induction false} FreshAfterDistinct(dw: seq<nat>, w: nat, xs: seq<nat>, lo: nat)
    requires w in dw && Distinct(dw) && Distinct(xs)
    requires (forall x: nat :: x in dw ==> x < lo) && forall x: nat :: x in xs ==> lo <= x
    ensures Distinct(InsertAfter(dw, Some(w), xs))
  {
    InsertAfterDistinct(dw, w, xs);
  }

  /**
   * `word.split()` keeps the shape: the words it makes are fresh, each goes to one block,
   * and the blocks it makes are fresh and attached (word.js:74-159).
   */
  lemma {:induction false} SplitShaped(h: Heap, w: WordId)
    requires Shaped(h) && CanSplit(h, w) && WordOrder.Placed(h, w)
    ensures Shaped(SplitEffect(h, w))
  {
    var p := PlanIn(h, w);
    if p.Split? {
      var b, n := h.wordParent[w].value, |p.same|;
      var h2, gs := SplitRuns(h, w), SplitGroups(h, w);
      SplitHalves(h, w);
      SplitRunsShaped(h, w);
      if gs == [] {
        SplitTailNone(h2, b, w);
      } else {
        SplitNewBlocksShaped(h, w);
      }
    }
  }

  /** With newlines, the split ends in its second half, on fresh words. */
  lemma {:induction false} SplitNewBlocksShaped(h: Heap, w: WordId)
    requires Shaped(h) && CanSplit(h, w) && PlanIn(h, w).Split? && WordOrder.Placed(h, w) && SplitGroups(h, w) != []
    ensures Shaped(SplitEffect(h, w))
  {
    var p, b := PlanIn(h, w), h.wordParent[w].value;
    var n := |p.same|;
    var h2, gs := SplitRuns(h, w), SplitGroups(h, w);
    SplitRunsShaped(h, w);
    SplitOrderDistinct(h, w);
    SplitGroupsFresh(h, w);
    SplitHalves(h, w);
    RegroupStep(h2, SplitEffect(h, w), b, w, gs, h.next + n);
  }

  /** The second half of the split keeps the shape when its words are fresh and the result lists no word twice. */
  lemma {:induction false} RegroupStep(h2: Heap, r: Heap, b: BlockId, w: WordId, gs: seq<seq<WordId>>, lo: nat)
    requires Shaped(h2) && b in h2.blocks && gs != [] && Disjoint(gs)
    requires forall v: WordId :: v in DocWords(h2.blockWords, h2.blocks) ==> v < lo
    requires forall j, v :: 0 <= j < |gs| && v in gs[j] ==> lo <= v
    requires r == Regroup(h2, b, w, gs) && WellFormed(r) && Distinct(DocWords(r.blockWords, r.blocks))
    ensures Shaped(r)
  {
    var cut := CutAfter(h2.blockWords[b], w);
    RegroupFields(h2, b, w, gs);
    StoredBelow(h2, b);
    FreshChain(h2.blocks, b, h2.next, |gs|);
    RegroupShaped(h2, r, b, w, gs, cut);
  }
}
