/** The last hash of a chain fixes everything that was hashed before it, up to a hash collision. */
module HeadBinding {

  import opened LogEntries
  import opened HashService
  import opened PreimageParser
  import opened ChainVerifier

  /** Either no difference was met, or the entries at `i` and `j` have different preimages and one hash. */
  datatype Binding = Agree | Collision(i: nat, j: nat)

  function PreimageAt(e: Env, entries: seq<LogEntry>, i: nat): string
    requires i < |entries|
  {
    Preimage(e, DataOf(entries[i], ResolvedPrevious(entries, i)))
  }

  ghost predicate SamePreimages(e: Env, xs: seq<LogEntry>, ys: seq<LogEntry>) {
    |xs| == |ys| && forall i :: 0 <= i < |xs| ==> PreimageAt(e, xs, i) == PreimageAt(e, ys, i)
  }

  /** Walk both lists from the end until the preimages differ. */
  function Compare(e: Env, xs: seq<LogEntry>, ys: seq<LogEntry>): (r: Binding)
    ensures r.Collision? ==> r.i < |xs| && r.j < |ys|
  {
    if xs == [] || ys == [] then Agree
    else
      var n, m := |xs| - 1, |ys| - 1;
      if PreimageAt(e, xs, n) != PreimageAt(e, ys, m) then Collision(n, m)
      else Compare(e, xs[..n], ys[..m])
  }

  lemma ResolvedPreviousFormat(e: Env, entries: seq<LogEntry>, i: nat)
    requires WellBehaved(e) && Accepted(e, entries) && i < |entries|
    ensures BarFree(ResolvedPrevious(entries, i))
    ensures ResolvedPrevious(entries, i) == GENESIS_PREVIOUS_HASH <==> i == 0
  {
    if i > 0 {
      assert EntryOk(e, entries, i - 1);
      DigestFormat(e, DataOf(entries[i - 1], ResolvedPrevious(entries, i - 1)));
    }
  }

  lemma TipIsDigest(e: Env, entries: seq<LogEntry>)
    requires WellBehaved(e) && Accepted(e, entries)
    ensures TipHash(entries) == GENESIS_PREVIOUS_HASH <==> entries == []
    ensures entries != [] ==> TipHash(entries) == e.sha256(PreimageAt(e, entries, |entries| - 1))
  {
    if entries != [] {
      var n := |entries| - 1;
      assert EntryOk(e, entries, n);
      DigestFormat(e, DataOf(entries[n], ResolvedPrevious(entries, n)));
    }
  }

  lemma PrefixPreimage(e: Env, entries: seq<LogEntry>, n: nat, i: nat)
    requires i < n <= |entries|
    ensures PreimageAt(e, entries[..n], i) == PreimageAt(e, entries, i)
  {
    assert ResolvedPrevious(entries[..n], i) == ResolvedPrevious(entries, i);
  }

  /** Equal preimages at the ends mean that what comes before ends in one hash, too. */
  lemma EqualEndsChainToOneTip(e: Env, xs: seq<LogEntry>, ys: seq<LogEntry>)
    requires WellBehaved(e) && Accepted(e, xs) && Accepted(e, ys) && xs != [] && ys != []
    requires PreimageAt(e, xs, |xs| - 1) == PreimageAt(e, ys, |ys| - 1)
    ensures TipHash(xs[..|xs| - 1]) == TipHash(ys[..|ys| - 1])
  {
    hide Preimage;
    var n, m := |xs| - 1, |ys| - 1;
    ResolvedPreviousFormat(e, xs, n);
    ResolvedPreviousFormat(e, ys, m);
    PreimageDeterminesPrevious(e, DataOf(xs[n], ResolvedPrevious(xs, n)), DataOf(ys[m], ResolvedPrevious(ys, m)));
    assert ResolvedPrevious(xs, n) == TipHash(xs[..n]);
    assert ResolvedPrevious(ys, m) == TipHash(ys[..m]);
  }

  /**
   * Two accepted lists with one tip hash have the same length and the same preimages, or the walk
   * from their ends finds two different preimages with the same hash.
   */
  lemma {:induction false} TipBindsChain(e: Env, xs: seq<LogEntry>, ys: seq<LogEntry>)
    requires WellBehaved(e) && Accepted(e, xs) && Accepted(e, ys)
    requires TipHash(xs) == TipHash(ys)
    ensures var r := Compare(e, xs, ys);
            if r.Agree? then SamePreimages(e, xs, ys)
            else
              && PreimageAt(e, xs, r.i) != PreimageAt(e, ys, r.j)
              && e.sha256(PreimageAt(e, xs, r.i)) == e.sha256(PreimageAt(e, ys, r.j))
  {
    hide Preimage;
    TipIsDigest(e, xs);
    TipIsDigest(e, ys);
    if xs != [] {
      var n, m := |xs| - 1, |ys| - 1;
      if PreimageAt(e, xs, n) == PreimageAt(e, ys, m) {
        EqualEndsChainToOneTip(e, xs, ys);
        AcceptedPrefix(e, xs, n);
        AcceptedPrefix(e, ys, m);
        TipBindsChain(e, xs[..n], ys[..m]);
        ExtendBinding(e, xs, ys);
      }
    }
  }

  lemma ExtendBinding(e: Env, xs: seq<LogEntry>, ys: seq<LogEntry>)
    requires xs != [] && ys != []
    requires PreimageAt(e, xs, |xs| - 1) == PreimageAt(e, ys, |ys| - 1)
    ensures var xs', ys' := xs[..|xs| - 1], ys[..|ys| - 1];
            var r := Compare(e, xs', ys');
            if r.Agree? then SamePreimages(e, xs', ys') ==> SamePreimages(e, xs, ys)
            else PreimageAt(e, xs', r.i) == PreimageAt(e, xs, r.i) && PreimageAt(e, ys', r.j) == PreimageAt(e, ys, r.j)
  {
    hide Preimage;
    var n, m := |xs| - 1, |ys| - 1;
    var r := Compare(e, xs[..n], ys[..m]);
    if r.Collision? {
      PrefixPreimage(e, xs, n, r.i);
      PrefixPreimage(e, ys, m, r.j);
    } else if SamePreimages(e, xs[..n], ys[..m]) {
      forall i | 0 <= i < n
        ensures PreimageAt(e, xs, i) == PreimageAt(e, ys, i)
      {
        PrefixPreimage(e, xs, n, i);
        PrefixPreimage(e, ys, n, i);
      }
    }
  }

  /** The readable content of the two chains is then the same, entry by entry, unless bars blur it. */
  lemma SamePreimagesMeanSameContent(e: Env, xs: seq<LogEntry>, ys: seq<LogEntry>)
    requires SamePreimages(e, xs, ys) && FaithfulStringify(e)
    requires forall i :: 0 <= i < |xs| ==> Unambiguous(e, DataOf(xs[i], ResolvedPrevious(xs, i)))
    requires forall i :: 0 <= i < |ys| ==> Unambiguous(e, DataOf(ys[i], ResolvedPrevious(ys, i)))
    ensures forall i :: 0 <= i < |xs| ==>
              ContentOf(e, DataOf(xs[i], ResolvedPrevious(xs, i))) ==
              ContentOf(e, DataOf(ys[i], ResolvedPrevious(ys, i)))
  {
    forall i | 0 <= i < |xs|
      ensures ContentOf(e, DataOf(xs[i], ResolvedPrevious(xs, i))) ==
              ContentOf(e, DataOf(ys[i], ResolvedPrevious(ys, i)))
    {
      assert PreimageAt(e, xs, i) == PreimageAt(e, ys, i);
      PreimageDeterminesContent(e, DataOf(xs[i], ResolvedPrevious(xs, i)), DataOf(ys[i], ResolvedPrevious(ys, i)));
    }
  }
}
