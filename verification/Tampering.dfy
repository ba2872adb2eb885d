/** Where verifyEntireChain reports a change made to a chain that it used to accept. */
module Tampering {

  import opened Wrappers
  import opened LogEntries
  import opened HashService
  import opened ChainVerifier

  predicate DistinctHashes(entries: seq<LogEntry>) {
    forall i, j :: 0 <= i < j < |entries| ==> entries[i].currentHash != entries[j].currentHash
  }

  /** A change at `k` leaves everything before `k` as it was. */
  lemma SoundBeforeChange(e: Env, entries: seq<LogEntry>, changed: seq<LogEntry>, k: nat)
    requires Accepted(e, entries) && k <= |entries| && k <= |changed| && changed[..k] == entries[..k]
    ensures SoundUpTo(e, changed, k)
    ensures 0 < k ==> changed[k - 1] == entries[k - 1]
  {
    PrefixEntries(e, entries, k);
    PrefixEntries(e, changed, k);
    if 0 < k {
      assert changed[..k][k - 1] == entries[..k][k - 1];
    }
  }

  lemma ReportAt(e: Env, entries: seq<LogEntry>, changed: seq<LogEntry>, k: nat)
    requires Accepted(e, entries) && k <= |entries| && k < |changed| && changed[..k] == entries[..k]
    requires !EntryOk(e, changed, k)
    ensures IsReport(e, changed, Finding(e, changed, k))
  {
    SoundBeforeChange(e, entries, changed, k);
    FindingIsReport(e, changed, k);
  }

  /**
   * Rewriting what an entry says, but not its hashes: the report names that entry, unless the new text
   * has the old hash, and then the whole list is still accepted.
   */
  lemma ContentChange(e: Env, entries: seq<LogEntry>, k: nat, changed: LogEntry)
    requires Accepted(e, entries) && k < |entries|
    requires changed.previousHash == entries[k].previousHash && changed.currentHash == entries[k].currentHash
    ensures var recomputed := GenerateHash(e, DataOf(changed, ResolvedPrevious(entries, k)));
            if recomputed == entries[k].currentHash then Accepted(e, entries[k := changed])
            else IsReport(e, entries[k := changed],
                          Broken(|entries|, changed.id, HashMismatch, recomputed, entries[k].currentHash))
  {
    var list := entries[k := changed];
    var recomputed := GenerateHash(e, DataOf(changed, ResolvedPrevious(entries, k)));
    assert EntryOk(e, entries, k);
    assert ResolvedPrevious(list, k) == ResolvedPrevious(entries, k);
    assert LinkOk(list, k) && ExpectedHash(e, list, k) == recomputed;
    if recomputed == entries[k].currentHash {
      forall i | 0 <= i < |list|
        ensures EntryOk(e, list, i)
      {
        assert EntryOk(e, entries, i);
        assert ResolvedPrevious(list, i) == ResolvedPrevious(entries, i);
      }
    } else {
      ReportAt(e, entries, list, k);
    }
  }

  /** Overwriting a stored hash: the report names that entry and both hashes. */
  lemma StoredHashChange(e: Env, entries: seq<LogEntry>, k: nat, hash: string)
    requires Accepted(e, entries) && k < |entries| && hash != entries[k].currentHash
    ensures IsReport(e, entries[k := entries[k].(currentHash := hash)],
                     Broken(|entries|, entries[k].id, HashMismatch, entries[k].currentHash, hash))
  {
    var list := entries[k := entries[k].(currentHash := hash)];
    assert EntryOk(e, entries, k);
    assert ResolvedPrevious(list, k) == ResolvedPrevious(entries, k);
    assert LinkOk(list, k) && ExpectedHash(e, list, k) == entries[k].currentHash;
    ReportAt(e, entries, list, k);
  }

  /**
   * Overwriting a stored previousHash: the report names that entry. The one change that passes is
   * between null and the sentinel on the first entry.
   */
  lemma StoredLinkChange(e: Env, entries: seq<LogEntry>, k: nat, link: Option<string>)
    requires Accepted(e, entries) && k < |entries| && link != entries[k].previousHash
    ensures var list := entries[k := entries[k].(previousHash := link)];
            if k > 0 then
              IsReport(e, list,
                       Broken(|entries|, entries[k].id, LinkageBroken, entries[k - 1].currentHash, link.GetOr("")))
            else if link == None || link == Some(GENESIS_PREVIOUS_HASH) then Accepted(e, list)
            else
              IsReport(e, list,
                       Broken(|entries|, entries[0].id, GenesisRule, GENESIS_PREVIOUS_HASH, link.GetOr("null")))
  {
    var list := entries[k := entries[k].(previousHash := link)];
    assert EntryOk(e, entries, k);
    assert ResolvedPrevious(list, k) == ResolvedPrevious(entries, k);
    if k == 0 && IsGenesisPrevious(link) {
      forall i | 0 <= i < |list|
        ensures EntryOk(e, list, i)
      {
        assert EntryOk(e, entries, i);
        assert ResolvedPrevious(list, i) == ResolvedPrevious(entries, i);
      }
    } else {
      assert !LinkOk(list, k);
      ReportAt(e, entries, list, k);
    }
  }

  /**
   * Replacing an entry by any other, hashes included: the report names it if it is no proper next entry,
   * else its successor if its hash is new to it. A consistent rewrite of the last entry passes.
   */
  lemma Replacement(e: Env, entries: seq<LogEntry>, k: nat, changed: LogEntry)
    requires Accepted(e, entries) && k < |entries|
    ensures var list := entries[k := changed];
            if !EntryOk(e, list, k) then IsReport(e, list, Finding(e, list, k))
            else if changed.currentHash != entries[k].currentHash && k + 1 < |entries| then
              IsReport(e, list, Broken(|entries|, entries[k + 1].id, LinkageBroken, changed.currentHash,
                                       entries[k + 1].previousHash.GetOr("")))
            else Accepted(e, list)
  {
    var list := entries[k := changed];
    if !EntryOk(e, list, k) {
      ReportAt(e, entries, list, k);
    } else if changed.currentHash != entries[k].currentHash && k + 1 < |entries| {
      SoundBeforeChange(e, entries, list, k);
      SoundStep(e, list, k);
      assert EntryOk(e, entries, k + 1);
      assert !LinkOk(list, k + 1);
      FindingIsReport(e, list, k + 1);
    } else {
      forall i | 0 <= i < |list|
        ensures EntryOk(e, list, i)
      {
        assert EntryOk(e, entries, i);
        assert i != k ==> ResolvedPrevious(list, i) == ResolvedPrevious(entries, i);
      }
    }
  }

  /** Removing an interior block: the first survivor after it is reported, with the hash it should have linked to. */
  lemma InteriorDeletion(e: Env, entries: seq<LogEntry>, a: nat, b: nat)
    requires Accepted(e, entries) && DistinctHashes(entries) && 0 < a < b < |entries|
    ensures IsReport(e, entries[..a] + entries[b..],
                     Broken(|entries| - (b - a), entries[b].id, LinkageBroken,
                            entries[a - 1].currentHash, entries[b - 1].currentHash))
  {
    var list := entries[..a] + entries[b..];
    assert EntryOk(e, entries, b);
    assert list[a] == entries[b] && list[a - 1] == entries[a - 1] && list[..a] == entries[..a];
    assert !LinkOk(list, a);
    ReportAt(e, entries, list, a);
  }

  /** Removing a proper leading block: the new first entry breaks the genesis rule. */
  lemma LeadingDeletion(e: Env, entries: seq<LogEntry>, b: nat)
    requires WellBehaved(e) && Accepted(e, entries) && 0 < b < |entries|
    ensures IsReport(e, entries[b..],
                     Broken(|entries| - b, entries[b].id, GenesisRule, GENESIS_PREVIOUS_HASH,
                            entries[b - 1].currentHash))
  {
    DigestFormat(e, DataOf(entries[b - 1], ResolvedPrevious(entries, b - 1)));
    assert EntryOk(e, entries, b - 1) && EntryOk(e, entries, b);
    assert !LinkOk(entries[b..], 0);
    ReportAt(e, entries, entries[b..], 0);
  }

  /**
   * Putting in an entry with a hash that was not in the log: the report names the newcomer,
   * or the entry that it displaced. At the very end it can pass, if it is a proper next entry.
   */
  lemma Insertion(e: Env, entries: seq<LogEntry>, k: nat, extra: LogEntry)
    requires WellBehaved(e) && Accepted(e, entries) && k < |entries|
    requires forall i :: 0 <= i < |entries| ==> entries[i].currentHash != extra.currentHash
    ensures var list := entries[..k] + [extra] + entries[k..];
            if !EntryOk(e, list, k) then IsReport(e, list, Finding(e, list, k))
            else IsReport(e, list, Broken(|entries| + 1, entries[k].id, LinkageBroken,
                                          extra.currentHash, entries[k].previousHash.GetOr("")))
  {
    var list := entries[..k] + [extra] + entries[k..];
    assert list[..k] == entries[..k] && list[k] == extra && list[k + 1] == entries[k];
    if !EntryOk(e, list, k) {
      ReportAt(e, entries, list, k);
    } else {
      SoundBeforeChange(e, entries, list, k);
      DigestFormat(e, DataOf(extra, ResolvedPrevious(list, k)));
      assert EntryOk(e, entries, k);
      assert !LinkOk(list, k + 1);
      SoundStep(e, list, k);
      FindingIsReport(e, list, k + 1);
    }
  }
}
