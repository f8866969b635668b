/** A connection over time: calls, and atomic iterators that hold a transaction open between them.  Whatever a rollback
    may bring back is as good as what it replaces. */
module Sessions {
  import opened Seqs
  import opened Tables
  import opened Groups
  import opened Integrity
  import opened CacheShape
  import Runs

  /** The store, whether a transaction is open, and then the database it started from. */
  datatype Session = Session(store: Runs.Store, open: bool, saved: Db)

  /** A call, the opening or closing of an iterator, or a mere look at the data. */
  datatype Action = Do(call: Runs.Call) | OpenIterator | CloseIterator | Look

  ghost predicate Same(s: Session, t: Session) {
    t.store == s.store && t.open == s.open && (s.open ==> t.saved == s.saved)
  }

  /** The open transaction is rolled back, by SQLite or by the error path of a call. */
  ghost predicate Undone(s: Session, t: Session) {
    s.open && !t.open && t.store == Runs.Store(s.saved, s.store.last)
  }

  /** One action.  A call is a step of the log whether or not a transaction is open. */
  ghost predicate Advance(s: Session, a: Action, t: Session) {
    Same(s, t) || Undone(s, t) ||
    match a
    case Do(c) => t.open == s.open && (s.open ==> t.saved == s.saved) && Runs.Step(s.store, c, t.store)
    case OpenIterator => !s.open && t.open && t.saved == s.store.db && t.store == s.store
    case CloseIterator => s.open && !t.open && t.store == s.store
    case Look => false
  }

  ghost predicate Course(states: seq<Session>, actions: seq<Action>) {
    && |states| == |actions| + 1
    && !states[0].open
    && Runs.Run([states[0].store], [])
    && forall i :: 0 <= i < |actions| ==> Advance(states[i], actions[i], states[i + 1])
  }

  ghost predicate AllSound(s: Session) {
    Sound(s.store.db) && (s.open ==> Sound(s.saved))
  }

  lemma AdvanceKeepsSound(s: Session, a: Action, t: Session)
    requires AllSound(s) && Advance(s, a, t)
    ensures AllSound(t)
  {
    if a.Do? && Runs.Step(s.store, a.call, t.store) { Runs.StepKeepsSound(s.store, a.call, t.store); }
  }

  /** Over every course of calls and iterators, the database, and the one a rollback would bring back, are sound. */
  lemma {:induction false} EveryCourseIsSound(states: seq<Session>, actions: seq<Action>)
    requires Course(states, actions)
    ensures AllSound(Last(states))
  {
    if actions == [] {
      Runs.EveryRunIsSound([states[0].store], []);
    } else {
      var n := |actions| - 1;
      EveryCourseIsSound(states[..n + 1], actions[..n]);
      AdvanceKeepsSound(states[n], actions[n], states[n + 1]);
    }
  }

  ghost predicate Fine(db: Db, last: Option<string>) {
    Agrees(db.events, db.cache) && Runs.PlainStore(Runs.Store(db, last))
  }

  ghost predicate AllFine(s: Session) {
    Fine(s.store.db, s.store.last) && (s.open ==> Fine(s.saved, s.store.last))
  }

  predicate Mild(a: Action) {
    a.Do? ==> Runs.KeepsCache(a.call) && Runs.PlainCall(a.call)
  }

  lemma AdvanceKeepsFine(s: Session, a: Action, t: Session)
    requires AllSound(s) && AllFine(s) && Advance(s, a, t) && Mild(a)
    ensures AllFine(t)
  {
    if a.Do? && Runs.Step(s.store, a.call, t.store) && !Same(s, t) && !Undone(s, t) {
      Runs.StepKeepsAgreement(s.store, a.call, t.store);
      Runs.StepKeepsPlain(s.store, a.call, t.store);
    }
  }

  /** Over every course of calls and iterators without delete_all and blind deletes, GroupCache agrees with Events,
      inside transactions too, and after any rollback. */
  lemma {:induction false} EveryCourseAgrees(states: seq<Session>, actions: seq<Action>)
    requires Course(states, actions) && forall i :: 0 <= i < |actions| ==> Mild(actions[i])
    ensures AllFine(Last(states))
  {
    if actions == [] {
      Runs.EveryRunAgrees([states[0].store], []);
    } else {
      var n := |actions| - 1;
      EveryCourseAgrees(states[..n + 1], actions[..n]);
      EveryCourseIsSound(states[..n + 1], actions[..n]);
      AdvanceKeepsFine(states[n], actions[n], states[n + 1]);
    }
  }

  ghost predicate AllShaped(s: Session) {
    Shaped(s.store.db.events, s.store.db.cache) && (s.open ==> Shaped(s.saved.events, s.saved.cache))
  }

  /** Over every course, whatever the calls and the uids, the cache has one row per group under its only service, inside
      transactions too, and after any rollback. */
  lemma {:induction false} EveryCourseHasOneRowPerGroup(states: seq<Session>, actions: seq<Action>)
    requires Course(states, actions)
    ensures AllShaped(Last(states))
  {
    if actions == [] {
      Runs.EveryRunHasOneRowPerGroup([states[0].store], []);
    } else {
      var n := |actions| - 1;
      EveryCourseHasOneRowPerGroup(states[..n + 1], actions[..n]);
      EveryCourseIsSound(states[..n + 1], actions[..n]);
      AdvanceKeepsShape(states[n], actions[n], states[n + 1]);
    }
  }

  lemma AdvanceKeepsShape(s: Session, a: Action, t: Session)
    requires AllSound(s) && AllShaped(s) && Advance(s, a, t)
    ensures AllShaped(t)
  {
    if a.Do? && Runs.Step(s.store, a.call, t.store) { Runs.StepKeepsShape(s.store, a.call, t.store); }
  }

  ghost predicate AllFlags(s: Session, exact: bool) {
    Runs.FlagsFine(s.store.db, exact) && (s.open ==> Runs.FlagsFine(s.saved, exact))
  }

  /** An action that leaves the cached flags as good as they were. */
  ghost predicate Gentle(s: Session, a: Action, t: Session, exact: bool) {
    Mild(a) && (a.Do? ==> Same(s, t) || Undone(s, t) || Runs.FlagSafe(s.store, a.call, t.store, exact))
  }

  lemma AdvanceKeepsFlags(s: Session, a: Action, t: Session, exact: bool)
    requires AllSound(s) && AllFine(s) && AllFlags(s, exact) && Advance(s, a, t) && Gentle(s, a, t, exact)
    ensures AllFlags(t, exact)
  {
    if a.Do? && Runs.Step(s.store, a.call, t.store) && !Same(s, t) && !Undone(s, t) {
      Runs.StepKeepsFlags(s.store, a.call, t.store, exact);
    }
  }

  /** Over every course of such actions, no cached flag bit is without an event that carries it, and, if `exact`, the
      cached flags are exactly the OR, inside transactions too, and after any rollback. */
  lemma {:induction false} EveryCourseKeepsFlags(states: seq<Session>, actions: seq<Action>, exact: bool)
    requires Course(states, actions)
    requires forall i :: 0 <= i < |actions| ==> Gentle(states[i], actions[i], states[i + 1], exact)
    ensures AllFlags(Last(states), exact)
  {
    if actions == [] {
      Runs.EveryRunKeepsFlags([states[0].store], [], exact);
    } else {
      var n := |actions| - 1;
      forall i | 0 <= i <= n ensures Mild(actions[i]) {
        assert Gentle(states[i], actions[i], states[i + 1], exact);
      }
      EveryCourseKeepsFlags(states[..n + 1], actions[..n], exact);
      EveryCourseIsSound(states[..n + 1], actions[..n]);
      EveryCourseAgrees(states[..n + 1], actions[..n]);
      AdvanceKeepsFlags(states[n], actions[n], states[n + 1], exact);
    }
  }

  /** What every course keeps, in the database and in the one a rollback would bring back. */
  ghost predicate Kept(s: Session) {
    AllSound(s) && AllFine(s)
  }

  lemma AdvanceKeeps(s: Session, a: Action, t: Session)
    requires Kept(s) && Advance(s, a, t) && Mild(a)
    ensures Kept(t)
  {
    AdvanceKeepsSound(s, a, t);
    AdvanceKeepsFine(s, a, t);
  }
}
