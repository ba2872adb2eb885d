/** Redis, the queue and the readers cannot influence what the write path does to the database. */
module NonInterference {

  import opened LogEntries
  import opened Database
  import opened WriterProtocol
  import opened SystemProtocol

  /** The run without its Redis, queue and read steps. */
  function Erase(actions: seq<Action>): seq<Action> {
    if actions == [] then []
    else
      var n := |actions| - 1;
      Erase(actions[..n]) + (if OnDatabase(actions[n]) then [actions[n]] else [])
  }

  /** The database states that a run goes through, one for each of its database steps. */
  function DbTrace(e: Env, actions: seq<Action>): seq<Db> {
    if actions == [] then []
    else
      var n := |actions| - 1;
      DbTrace(e, actions[..n]) +
      (if OnDatabase(actions[n]) && Exec(e, actions).Some? then [Exec(e, actions).value.core.db] else [])
  }

  /** The database does not see how far a client has come after its commit. */
  function Seen(phase: Phase): Phase {
    if phase.IsDone() then Committed(phase.row) else phase
  }

  predicate SameWriter(v: Writer, w: Writer) {
    v.req == w.req && v.createdAt == w.createdAt && Seen(v.phase) == Seen(w.phase)
  }

  predicate SameForDatabase(k: Core, l: Core) {
    && k.db == l.db && k.lock == l.lock && k.writers.Keys == l.writers.Keys
    && forall c :: c in k.writers ==> SameWriter(k.writers[c], l.writers[c])
  }

  lemma UnseenActor(e: Env, k: Core, a: Action)
    requires CoreEnabled(k, a) && AfterCommit(a)
    ensures var k' := CoreNext(e, k, a);
            && a.c in k.writers && a.c in k'.writers && k'.db == k.db && k'.lock == k.lock
            && SameWriter(k'.writers[a.c], k.writers[a.c])
  {
  }

  lemma UnseenStep(e: Env, k: Core, l: Core, a: Action)
    requires SameForDatabase(k, l) && CoreEnabled(k, a) && !OnDatabase(a)
    ensures SameForDatabase(CoreNext(e, k, a), l)
  {
    OthersStay(e, k, a);
    if AfterCommit(a) {
      UnseenActor(e, k, a);
    }
    hide CoreNext;
    hide CoreEnabled;
    hide Seen;
  }

  /** A database step looks at its own client, the lock and the tables, and at nothing else. */
  lemma SeenActor(e: Env, k: Core, l: Core, a: Action)
    requires CoreEnabled(k, a) && OnDatabase(a)
    requires k.db == l.db && k.lock == l.lock && (a.c in k.writers <==> a.c in l.writers)
    requires a.c in k.writers ==> k.writers[a.c] == l.writers[a.c]
    ensures CoreEnabled(l, a)
    ensures var k', l' := CoreNext(e, k, a), CoreNext(e, l, a);
            && k'.db == l'.db && k'.lock == l'.lock
            && a.c in k'.writers && a.c in l'.writers && k'.writers[a.c] == l'.writers[a.c]
  {
    hide ComputeHashes;
    hide Admits;
    hide RowToInsert;
  }

  /** A client in the middle of its database steps looks the same on both sides. */
  lemma SeenAlike(k: Core, l: Core, a: Action)
    requires SameForDatabase(k, l) && CoreEnabled(k, a) && OnDatabase(a)
    ensures a.c in k.writers <==> a.c in l.writers
    ensures a.c in k.writers ==> k.writers[a.c] == l.writers[a.c]
  {
    assert a.c in k.writers ==> !k.writers[a.c].phase.IsDone();
  }

  lemma SeenStep(e: Env, k: Core, l: Core, a: Action)
    requires SameForDatabase(k, l) && CoreEnabled(k, a) && OnDatabase(a)
    ensures CoreEnabled(l, a)
    ensures SameForDatabase(CoreNext(e, k, a), CoreNext(e, l, a))
  {
    SeenAlike(k, l, a);
    SeenActor(e, k, l, a);
    var k', l' := CoreNext(e, k, a), CoreNext(e, l, a);
    KeysAfter(e, k, a);
    KeysAfter(e, l, a);
    forall c | c in k'.writers
      ensures SameWriter(k'.writers[c], l'.writers[c])
    {
      if c != a.c {
        OtherStays(e, k, a, c);
        OtherStays(e, l, a, c);
        hide CoreNext;
        hide CoreEnabled;
        hide SameWriter;
      }
    }
    hide CoreNext;
    hide CoreEnabled;
    hide SameWriter;
  }

  lemma KeysAfter(e: Env, k: Core, a: Action)
    requires CoreEnabled(k, a) && OnDatabase(a)
    ensures CoreNext(e, k, a).writers.Keys == k.writers.Keys + {a.c}
  {
    OthersStay(e, k, a);
  }

  lemma OtherStays(e: Env, k: Core, a: Action, c: nat)
    requires CoreEnabled(k, a) && OnDatabase(a) && c in CoreNext(e, k, a).writers && c != a.c
    ensures c in k.writers && CoreNext(e, k, a).writers[c] == k.writers[c]
  {
    OthersStay(e, k, a);
  }

  /**
   * Leaving out every Redis, queue and read step of a run, whatever those steps returned, gives a run
   * that takes the database through the same states.
   */
  lemma {:induction false} WritePathIgnoresRedisAndQueue(e: Env, actions: seq<Action>)
    requires Exec(e, actions).Some?
    ensures Exec(e, Erase(actions)).Some?
    ensures SameForDatabase(Exec(e, actions).value.core, Exec(e, Erase(actions)).value.core)
    ensures DbTrace(e, Erase(actions)) == DbTrace(e, actions)
  {
    hide SameForDatabase;
    hide CoreNext;
    hide CoreEnabled;
    hide IoNext;
    if actions == [] {
      assert SameForDatabase(INIT_CORE, INIT_CORE) by { SameAsItself(INIT_CORE); }
    } else {
      var n := |actions| - 1;
      var a := actions[n];
      WritePathIgnoresRedisAndQueue(e, actions[..n]);
      var s, t := Exec(e, actions[..n]).value, Exec(e, Erase(actions[..n])).value;
      if OnDatabase(a) {
        SeenStep(e, s.core, t.core, a);
        assert Erase(actions)[..|Erase(actions[..n])|] == Erase(actions[..n]);
        assert Enabled(t, a);
        SameMeansSameDb(CoreNext(e, s.core, a), CoreNext(e, t.core, a));
      } else {
        UnseenStep(e, s.core, t.core, a);
        assert Erase(actions) == Erase(actions[..n]);
      }
    }
  }

  lemma SameAsItself(k: Core)
    ensures SameForDatabase(k, k)
  {
  }

  lemma SameMeansSameDb(k: Core, l: Core)
    requires SameForDatabase(k, l)
    ensures k.db == l.db
  {
  }

  lemma {:induction false} ErasedPrefix(actions: seq<Action>, n: nat)
    requires n <= |actions|
    ensures Erase(actions[..n]) <= Erase(actions)
  {
    if n == |actions| {
      assert actions[..n] == actions;
    } else {
      var m := |actions| - 1;
      ErasedPrefix(actions[..m], n);
      assert actions[..m][..n] == actions[..n];
    }
  }

  /** What is left are the database steps, each as often as it was taken. */
  lemma {:induction false} ErasedRun(actions: seq<Action>)
    ensures forall a: Action :: multiset(Erase(actions))[a] == if OnDatabase(a) then multiset(actions)[a] else 0
  {
    if actions != [] {
      var n := |actions| - 1;
      ErasedRun(actions[..n]);
      assert actions == actions[..n] + [actions[n]];
    }
  }

  /** The trace has one entry for each database step: the tables right after it. */
  lemma {:induction false} TraceInFull(e: Env, actions: seq<Action>, n: nat)
    requires Exec(e, actions).Some? && n < |actions| && OnDatabase(actions[n])
    ensures |DbTrace(e, actions)| == |Erase(actions)|
    ensures |Erase(actions[..n])| < |DbTrace(e, actions)|
    ensures Exec(e, actions[..n + 1]).Some?
    ensures DbTrace(e, actions)[|Erase(actions[..n])|] == Exec(e, actions[..n + 1]).value.core.db
  {
    hide Next;
    hide Enabled;
    hide OnDatabase;
    var m := |actions| - 1;
    TraceLength(e, actions[..m]);
    if n < m {
      TraceInFull(e, actions[..m], n);
      assert actions[..m][..n] == actions[..n] && actions[..m][..n + 1] == actions[..n + 1];
    } else {
      assert actions[..n + 1] == actions;
    }
  }

  lemma {:induction false} TraceLength(e: Env, actions: seq<Action>)
    requires Exec(e, actions).Some?
    ensures |DbTrace(e, actions)| == |Erase(actions)|
  {
    hide Next;
    hide Enabled;
    if actions != [] {
      TraceLength(e, actions[..|actions| - 1]);
    }
  }

  /** At every point of a run, the tables are those at the matching point of the erased run. */
  lemma SameTablesAtEveryPoint(e: Env, actions: seq<Action>, n: nat)
    requires Exec(e, actions).Some? && n <= |actions|
    ensures Erase(actions[..n]) <= Erase(actions)
    ensures Exec(e, actions[..n]).Some? && Exec(e, Erase(actions[..n])).Some?
    ensures Exec(e, actions[..n]).value.core.db == Exec(e, Erase(actions[..n])).value.core.db
  {
    ErasedPrefix(actions, n);
    ExecPrefix(e, actions, n);
    hide Exec;
    WritePathIgnoresRedisAndQueue(e, actions[..n]);
  }
}
