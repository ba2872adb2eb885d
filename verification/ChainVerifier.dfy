/** Verification of a whole list of entries against the hash chain they should form. */
module ChainVerifier {

  import opened Wrappers
  import opened LogEntries
  import opened HashService
  import opened PreimageParser

  /** Why a list was rejected: the first entry's link, another entry's link, or an entry's own hash. */
  datatype Reason = GenesisRule | LinkageBroken | HashMismatch

  datatype VerifyResult =
    | Intact(totalEntries: nat)
    | Broken(totalEntries: nat, brokenEntryId: string, reason: Reason, expectedHash: string, actualHash: string)

  // ----- What it means for a list to be a chain -----

  predicate IsGenesisPrevious(previousHash: Option<string>) {
    previousHash == Some(GENESIS_PREVIOUS_HASH) || previousHash == None
  }

  /** The hash that the entry at `i` must chain to. */
  function ResolvedPrevious(entries: seq<LogEntry>, i: nat): string
    requires i < |entries|
  {
    if i == 0 then GENESIS_PREVIOUS_HASH else entries[i - 1].currentHash
  }

  predicate LinkOk(entries: seq<LogEntry>, i: nat)
    requires i < |entries|
  {
    if i == 0 then IsGenesisPrevious(entries[0].previousHash)
    else entries[i].previousHash == Some(entries[i - 1].currentHash)
  }

  function ExpectedHash(e: Env, entries: seq<LogEntry>, i: nat): string
    requires i < |entries|
  {
    GenerateHash(e, DataOf(entries[i], ResolvedPrevious(entries, i)))
  }

  predicate EntryOk(e: Env, entries: seq<LogEntry>, i: nat)
    requires i < |entries|
  {
    LinkOk(entries, i) && entries[i].currentHash == ExpectedHash(e, entries, i)
  }

  predicate Linked(entries: seq<LogEntry>) {
    forall i :: 0 <= i < |entries| ==> LinkOk(entries, i)
  }

  predicate SoundUpTo(e: Env, entries: seq<LogEntry>, n: nat)
    requires n <= |entries|
  {
    forall i :: 0 <= i < n ==> EntryOk(e, entries, i)
  }

  /** Every entry links to the one before it and carries the hash of its own content. */
  predicate Accepted(e: Env, entries: seq<LogEntry>) {
    SoundUpTo(e, entries, |entries|)
  }

  /** `i` is the first place where the list is not a chain. */
  predicate FirstViolation(e: Env, entries: seq<LogEntry>, i: nat) {
    i < |entries| && !EntryOk(e, entries, i) && SoundUpTo(e, entries, i)
  }

  /** The report about a faulty entry: the link is looked at before the hash. */
  function Finding(e: Env, entries: seq<LogEntry>, i: nat): VerifyResult
    requires i < |entries|
  {
    var entry := entries[i];
    if i == 0 && !LinkOk(entries, 0) then
      Broken(|entries|, entry.id, GenesisRule, GENESIS_PREVIOUS_HASH, entry.previousHash.GetOr("null"))
    else if !LinkOk(entries, i) then
      Broken(|entries|, entry.id, LinkageBroken, entries[i - 1].currentHash, entry.previousHash.GetOr(""))
    else
      Broken(|entries|, entry.id, HashMismatch, ExpectedHash(e, entries, i), entry.currentHash)
  }

  /** The specification of verifyEntireChain. */
  ghost predicate IsReport(e: Env, entries: seq<LogEntry>, result: VerifyResult) {
    || (Accepted(e, entries) && result == Intact(|entries|))
    || exists i: nat :: FirstViolation(e, entries, i) && result == Finding(e, entries, i)
  }

  lemma FindingIsReport(e: Env, entries: seq<LogEntry>, i: nat)
    requires FirstViolation(e, entries, i)
    ensures IsReport(e, entries, Finding(e, entries, i)) && !Accepted(e, entries)
    ensures Finding(e, entries, i).Broken? && Finding(e, entries, i).totalEntries == |entries|
  {
  }

  lemma SoundStep(e: Env, entries: seq<LogEntry>, i: nat)
    requires i < |entries| && SoundUpTo(e, entries, i) && EntryOk(e, entries, i)
    ensures SoundUpTo(e, entries, i + 1)
  {
  }

  // ----- The algorithm -----

  method VerifyEntireChain(e: Env, entries: seq<LogEntry>) returns (result: VerifyResult)
    ensures result.totalEntries == |entries|
    ensures result.Intact? <==> Accepted(e, entries)
    ensures IsReport(e, entries, result)
  {
    if |entries| == 0 {
      return Intact(0);
    }
    var i := 0;
    while i < |entries|
      invariant 0 <= i <= |entries|
      invariant SoundUpTo(e, entries, i)
    {
      var entry := entries[i];
      if i == 0 {
        if entry.previousHash != Some(GENESIS_PREVIOUS_HASH) && entry.previousHash != None {
          FindingIsReport(e, entries, i);
          return Broken(|entries|, entry.id, GenesisRule, GENESIS_PREVIOUS_HASH, entry.previousHash.GetOr("null"));
        }
      }
      var resolvedPreviousHash := if i == 0 then GENESIS_PREVIOUS_HASH else entries[i - 1].currentHash;
      if i > 0 && entry.previousHash != Some(entries[i - 1].currentHash) {
        FindingIsReport(e, entries, i);
        return Broken(|entries|, entry.id, LinkageBroken, entries[i - 1].currentHash, entry.previousHash.GetOr(""));
      }
      var expectedHash := GenerateHash(e, HashData(resolvedPreviousHash, entry.actor, entry.action, entry.payload,
                                                   Some(entry.createdAt), None));
      if entry.currentHash != expectedHash {
        FindingIsReport(e, entries, i);
        return Broken(|entries|, entry.id, HashMismatch, expectedHash, entry.currentHash);
      }
      SoundStep(e, entries, i);
      i := i + 1;
    }
    return Intact(|entries|);
  }

  /** The shape returned by the legacy alias verifyChain. */
  datatype LegacyResult = LegacyResult(valid: bool, totalEntries: nat, brokenAt: Option<string>)

  /** An empty id is falsy, so the legacy result leaves `brokenAt` out for it. */
  method VerifyChain(e: Env, entries: seq<LogEntry>) returns (result: LegacyResult)
    ensures result.valid <==> Accepted(e, entries)
    ensures result.totalEntries == |entries|
    ensures result.valid ==> result.brokenAt == None
    ensures !result.valid ==>
              exists i: nat :: FirstViolation(e, entries, i) &&
                               result.brokenAt == if entries[i].id == "" then None else Some(entries[i].id)
  {
    var full := VerifyEntireChain(e, entries);
    result := LegacyResult(
      full.Intact?,
      full.totalEntries,
      if full.Broken? && full.brokenEntryId != "" then Some(full.brokenEntryId) else None);
  }

  // ----- The specification has one answer -----

  lemma PrefixEntries(e: Env, entries: seq<LogEntry>, n: nat)
    requires n <= |entries|
    ensures forall i :: 0 <= i < n ==>
              && (EntryOk(e, entries[..n], i) <==> EntryOk(e, entries, i))
              && (LinkOk(entries[..n], i) <==> LinkOk(entries, i))
    ensures Accepted(e, entries[..n]) <==> SoundUpTo(e, entries, n)
  {
    forall i | 0 <= i < n
      ensures EntryOk(e, entries[..n], i) <==> EntryOk(e, entries, i)
      ensures LinkOk(entries[..n], i) <==> LinkOk(entries, i)
    {
      assert ResolvedPrevious(entries[..n], i) == ResolvedPrevious(entries, i);
    }
  }

  /** Exactly one report fits a list, so the specification determines every field of the result. */
  lemma ReportIsUnique(e: Env, entries: seq<LogEntry>, a: VerifyResult, b: VerifyResult)
    requires IsReport(e, entries, a) && IsReport(e, entries, b)
    ensures a == b
  {
    if i: nat :| FirstViolation(e, entries, i) && a == Finding(e, entries, i) {
      if j: nat :| FirstViolation(e, entries, j) && b == Finding(e, entries, j) {
        assert i == j;
      }
    }
  }

  /** The entries before the reported one form a chain, and any longer prefix does not. */
  lemma PrefixBeforeViolation(e: Env, entries: seq<LogEntry>, i: nat)
    ensures FirstViolation(e, entries, i) <==>
            i < |entries| && Accepted(e, entries[..i]) && !Accepted(e, entries[..i + 1])
  {
    if i < |entries| {
      PrefixEntries(e, entries, i);
      PrefixEntries(e, entries, i + 1);
    }
  }

  // ----- Building and cutting chains -----

  /** Every prefix of a chain is a chain: a log that lost its tail is still accepted. */
  lemma AcceptedPrefix(e: Env, entries: seq<LogEntry>, n: nat)
    requires Accepted(e, entries) && n <= |entries|
    ensures Accepted(e, entries[..n])
  {
    PrefixEntries(e, entries, n);
  }

  /** The hash that the next entry must chain to. */
  function TipHash(entries: seq<LogEntry>): string {
    if entries == [] then GENESIS_PREVIOUS_HASH else entries[|entries| - 1].currentHash
  }

  /** One entry more keeps the chain exactly when it links to the tip and its hash recomputes. */
  lemma AcceptedAppend(e: Env, entries: seq<LogEntry>, entry: LogEntry)
    ensures Accepted(e, entries + [entry]) <==>
            && Accepted(e, entries)
            && (if entries == [] then IsGenesisPrevious(entry.previousHash)
                else entry.previousHash == Some(TipHash(entries)))
            && VerifyEntry(e, entry, Some(TipHash(entries)))
  {
    var longer := entries + [entry];
    assert longer[..|entries|] == entries;
    PrefixEntries(e, longer, |entries|);
    assert ResolvedPrevious(longer, |entries|) == TipHash(entries);
    assert EntryOk(e, longer, |entries|) <==>
      (if entries == [] then IsGenesisPrevious(entry.previousHash) else entry.previousHash == Some(TipHash(entries)))
      && VerifyEntry(e, entry, Some(TipHash(entries)));
  }

  lemma AcceptedIsLinked(e: Env, entries: seq<LogEntry>)
    requires Accepted(e, entries)
    ensures Linked(entries)
  {
    forall i | 0 <= i < |entries|
      ensures LinkOk(entries, i)
    {
      assert EntryOk(e, entries, i);
    }
  }

  /** Whole-chain acceptance is the links plus the status that getLogById gives each entry alone. */
  lemma ChainIsLinksPlusStatuses(e: Env, entries: seq<LogEntry>)
    ensures Accepted(e, entries) <==>
            Linked(entries) && forall i :: 0 <= i < |entries| ==> VerificationStatus(e, entries[i])
  {
    forall i | 0 <= i < |entries|
      ensures EntryOk(e, entries, i) <==> LinkOk(entries, i) && VerificationStatus(e, entries[i])
    {
      if LinkOk(entries, i) {
        assert entries[i].previousHash.GetOr(GENESIS_PREVIOUS_HASH) == ResolvedPrevious(entries, i);
      }
    }
  }

  // ----- Acceptance in terms of the stored fields -----

  /** An old log whose first entry links to null is as good as one whose first entry links to the sentinel. */
  lemma NullIsGenesis(e: Env, entries: seq<LogEntry>)
    requires entries != [] && entries[0].previousHash == Some("GENESIS")
    ensures Accepted(e, entries) <==> Accepted(e, entries[0 := entries[0].(previousHash := None)])
  {
    var other := entries[0 := entries[0].(previousHash := None)];
    forall i | 0 <= i < |entries|
      ensures EntryOk(e, entries, i) <==> EntryOk(e, other, i)
    {
      assert ResolvedPrevious(other, i) == ResolvedPrevious(entries, i);
    }
  }

  /** When the first entry passes, in terms of what is stored. */
  lemma FirstInFull(e: Env, entries: seq<LogEntry>)
    requires entries != []
    ensures EntryOk(e, entries, 0) <==>
            && (entries[0].previousHash == None || entries[0].previousHash == Some("GENESIS"))
            && entries[0].currentHash == e.sha256(TextOf(e, entries[0], "GENESIS"))
  {
    HashOfText(e, entries[0], "GENESIS");
    hide TextOf;
    hide GenerateHash;
  }

  /** When a later entry passes, in terms of what is stored. */
  lemma NextInFull(e: Env, entries: seq<LogEntry>, i: nat)
    requires 0 < i < |entries|
    ensures EntryOk(e, entries, i) <==>
            && entries[i].previousHash == Some(entries[i - 1].currentHash)
            && entries[i].currentHash == e.sha256(TextOf(e, entries[i], entries[i - 1].currentHash))
  {
    HashOfText(e, entries[i], entries[i - 1].currentHash);
    hide TextOf;
    hide GenerateHash;
  }

  predicate Starts(e: Env, entry: LogEntry) {
    && (entry.previousHash == None || entry.previousHash == Some("GENESIS"))
    && entry.currentHash == e.sha256(TextOf(e, entry, "GENESIS"))
  }

  predicate Follows(e: Env, entry: LogEntry, before: LogEntry) {
    && entry.previousHash == Some(before.currentHash)
    && entry.currentHash == e.sha256(TextOf(e, entry, before.currentHash))
  }

  /** Which lists are accepted: a proper first entry, and after it each follows the one before. */
  lemma AcceptedInFull(e: Env, entries: seq<LogEntry>)
    ensures Accepted(e, entries) <==>
            && (entries != [] ==> Starts(e, entries[0]))
            && forall i :: 0 < i < |entries| ==> Follows(e, entries[i], entries[i - 1])
  {
    hide EntryOk;
    if entries != [] {
      FirstInFull(e, entries);
    }
    forall i | 0 < i < |entries|
      ensures EntryOk(e, entries, i) <==> Follows(e, entries[i], entries[i - 1])
    {
      NextInFull(e, entries, i);
    }
    if Accepted(e, entries) {
      assert entries != [] ==> EntryOk(e, entries, 0);
      assert forall i :: 0 < i < |entries| ==> EntryOk(e, entries, i);
    } else {
      var i :| 0 <= i < |entries| && !EntryOk(e, entries, i);
      assert i > 0 ==> !Follows(e, entries[i], entries[i - 1]);
    }
  }

  /** When a single entry passes, in terms of what is stored; no previous hash is as good as the sentinel. */
  lemma EntryInFull(e: Env, entry: LogEntry, previousHash: Option<string>)
    ensures VerifyEntry(e, entry, previousHash) <==>
            entry.currentHash == e.sha256(TextOf(e, entry, previousHash.GetOr("GENESIS")))
  {
    HashOfText(e, entry, previousHash.GetOr("GENESIS"));
  }

  lemma StatusInFull(e: Env, entry: LogEntry)
    ensures VerificationStatus(e, entry) <==>
            entry.currentHash == e.sha256(TextOf(e, entry, entry.previousHash.GetOr("GENESIS")))
  {
    EntryInFull(e, entry, entry.previousHash);
  }

  /** Two entries that both pass alone as the first of a log: as a list, the second one is reported. */
  lemma StatusesAloneAreNotEnough(e: Env, first: LogEntry, second: LogEntry)
    requires WellBehaved(e)
    requires first.previousHash == second.previousHash == Some(GENESIS_PREVIOUS_HASH)
    requires VerificationStatus(e, first) && VerificationStatus(e, second)
    ensures FirstViolation(e, [first, second], 1)
    ensures Finding(e, [first, second], 1) ==
            Broken(2, second.id, LinkageBroken, first.currentHash, GENESIS_PREVIOUS_HASH)
  {
    DigestFormat(e, DataOf(first, GENESIS_PREVIOUS_HASH));
    assert EntryOk(e, [first, second], 0);
    assert !LinkOk([first, second], 1);
  }

  /** Such entries exist for any two actors without a bar, with hashes that the unique index tells apart. */
  lemma TwoFirstEntries(e: Env, id: string, actor: string, other: string, action: string, ms: int)
      returns (first: LogEntry, second: LogEntry)
    requires WellBehaved(e) && actor != other && BarFree(actor) && BarFree(other) && BarFree(action)
    ensures first.previousHash == second.previousHash == Some(GENESIS_PREVIOUS_HASH)
    ensures VerificationStatus(e, first) && VerificationStatus(e, second)
    ensures first.id != second.id
    ensures || first.currentHash != second.currentHash
            || IsCollision(e, Preimage(e, DataOf(first, GENESIS_PREVIOUS_HASH)),
                           Preimage(e, DataOf(second, GENESIS_PREVIOUS_HASH)))
  {
    first := LogEntry(id, actor, action, None, Some(GENESIS_PREVIOUS_HASH),
                      CreateGenesisHash(e, actor, action, None, DateValue(ms)), DateValue(ms));
    second := LogEntry(id + "'", other, action, None, Some(GENESIS_PREVIOUS_HASH),
                       CreateGenesisHash(e, other, action, None, DateValue(ms)), DateValue(ms));
    assert |second.id| == |first.id| + 1;
    assert IsoOk(e, ms);
    PreimageRoundTrip(e, DataOf(first, GENESIS_PREVIOUS_HASH));
    PreimageRoundTrip(e, DataOf(second, GENESIS_PREVIOUS_HASH));
  }
}
