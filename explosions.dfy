/**
 * The main thread's side of the explosion protocol (static/js/game.js, the
 * `Explosion` id counter, the worker's `onmessage` handler and the filter of
 * completed explosions at the start of draw).
 */
module Explosions {
  import opened Wrappers
  import opened GameModel
  import ExplosionWorker

  /** `explosions.find(exp => exp.id === id)`, as an index: the first match from `from` on. */
  function FindExplosion(explosions: seq<Explosion>, id: int, from: nat): (r: Option<nat>)
    ensures r.Some? ==>
      from <= r.value < |explosions| && explosions[r.value].id == id &&
      forall i :: from <= i < r.value ==> explosions[i].id != id
    ensures r.None? ==> forall i :: from <= i < |explosions| ==> explosions[i].id != id
    decreases |explosions| - from
  {
    if from >= |explosions| then None
    else if explosions[from].id == id then Some(from)
    else FindExplosion(explosions, id, from + 1)
  }

  /** Whether index `i` holds the first explosion with the given id. */
  predicate FirstWithId(explosions: seq<Explosion>, id: int, i: int)
  {
    0 <= i < |explosions| && explosions[i].id == id &&
    forall j :: 0 <= j < i ==> explosions[j].id != id
  }

  /**
   * The worker-message handler: the first live explosion with the message's
   * id is marked complete, or takes the reported progress; a message for an
   * unknown id changes nothing.  Nothing else about any explosion changes.
   */
  function OnWorkerMessage(s: State, m: ExplosionWorker.Msg): (r: State)
    ensures r == s.(explosions := r.explosions)
    ensures |r.explosions| == |s.explosions|
    ensures forall i :: 0 <= i < |s.explosions| && s.explosions[i].id != m.id ==> r.explosions[i] == s.explosions[i]
    ensures forall i :: 0 <= i < |s.explosions| ==>
      r.explosions[i] == s.explosions[i].(isComplete := r.explosions[i].isComplete, progress := r.explosions[i].progress)
    ensures (forall i :: 0 <= i < |s.explosions| ==> s.explosions[i].id != m.id) ==> r == s
    ensures forall i :: FirstWithId(s.explosions, m.id, i) ==>
      (m.Complete? ==> r.explosions[i].isComplete) &&
      (m.Update? ==> r.explosions[i].progress == m.progress)
  {
    match FindExplosion(s.explosions, m.id, 0)
    case None => s
    case Some(i) =>
      var e := s.explosions[i];
      var e' := match m
        case Complete(_) => e.(isComplete := true)
        case Update(_, p) => e.(progress := p);
      s.(explosions := s.explosions[i := e'])
  }

  /** With ids kept ordered, the message reaches the one explosion carrying its id. */
  lemma MessageReachesItsExplosion(s: State, m: ExplosionWorker.Msg, i: nat)
    requires IdsOrdered(s.explosions, s.nextExplosionId)
    requires i < |s.explosions| && s.explosions[i].id == m.id
    ensures m.Complete? ==> OnWorkerMessage(s, m).explosions[i].isComplete
    ensures m.Update? ==> OnWorkerMessage(s, m).explosions[i].progress == m.progress
  {
    forall j | 0 <= j < i ensures s.explosions[j].id != m.id {
      assert s.explosions[j].id < s.explosions[i].id;
    }
  }

  /** `explosions.filter(e => !e.isComplete)`. */
  function LiveOnly(explosions: seq<Explosion>): (r: seq<Explosion>)
    ensures forall e :: e in r <==> e in explosions && !e.isComplete
    ensures |r| <= |explosions|
  {
    if explosions == [] then []
    else
      var rest := LiveOnly(explosions[1..]);
      if explosions[0].isComplete then rest else [explosions[0]] + rest
  }

  /** Filtering keeps the ids ordered and below the counter. */
  lemma {:induction false} LiveOnlyKeepsOrder(explosions: seq<Explosion>, nextId: nat)
    requires IdsOrdered(explosions, nextId)
    ensures IdsOrdered(LiveOnly(explosions), nextId)
  {
    if explosions != [] {
      var tail := explosions[1..];
      TailOrdered(explosions, nextId);
      LiveOnlyKeepsOrder(tail, nextId);
      var rest := LiveOnly(tail);
      if !explosions[0].isComplete {
        ConsOrdered(explosions[0], rest, nextId);
      }
    }
  }

  lemma TailOrdered(explosions: seq<Explosion>, nextId: nat)
    requires IdsOrdered(explosions, nextId) && explosions != []
    ensures IdsOrdered(explosions[1..], nextId)
    ensures forall e :: e in explosions[1..] ==> explosions[0].id < e.id
  {
    var tail := explosions[1..];
    forall i, j | 0 <= i < j < |tail| ensures tail[i].id < tail[j].id {
      assert tail[i] == explosions[i + 1] && tail[j] == explosions[j + 1];
    }
    forall e | e in tail ensures explosions[0].id < e.id {
      var m :| 0 <= m < |tail| && tail[m] == e;
      assert explosions[m + 1] == e;
    }
  }

  lemma ConsOrdered(x: Explosion, rest: seq<Explosion>, nextId: nat)
    requires IdsOrdered(rest, nextId) && x.id < nextId
    requires forall e :: e in rest ==> x.id < e.id
    ensures IdsOrdered([x] + rest, nextId)
  {
    var r := [x] + rest;
    forall i, j | 0 <= i < j < |r| ensures r[i].id < r[j].id {
      assert r[j] == rest[j - 1];
      if i > 0 {
        assert r[i] == rest[i - 1];
      } else {
        assert rest[j - 1] in rest;
      }
    }
    forall i | 0 <= i < |r| ensures r[i].id < nextId {
      if i > 0 {
        assert r[i] == rest[i - 1];
      }
    }
  }

  /** The prune at the start of draw: completed explosions leave, the rest keep their order. */
  function PruneExplosions(s: State): (r: State)
    ensures r == s.(explosions := r.explosions)
    ensures forall e :: e in r.explosions <==> e in s.explosions && !e.isComplete
    ensures IdsOrdered(s.explosions, s.nextExplosionId) ==> IdsOrdered(r.explosions, r.nextExplosionId)
  {
    var pruned := s.(explosions := LiveOnly(s.explosions));
    if IdsOrdered(s.explosions, s.nextExplosionId) then
      LiveOnlyKeepsOrder(s.explosions, s.nextExplosionId);
      pruned
    else pruned
  }
}
