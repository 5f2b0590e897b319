/**
 * The state of an `AnomalyDetector` (src/detectors/AnomalyDetector.js:42-47)
 * as a value: the `reasons` and `scores` Maps keyed by `order_id`, each with
 * the insertion order JavaScript iterates it in, and the two writers `note`
 * and `setScore`.
 */
module DetectorState {
  import opened JsNumber
  import opened Records
  import opened Rules

  datatype Annotations = Annotations(
    reasons: map<string, seq<Reason>>,
    reasonOrder: seq<string>,
    scores: map<string, Num>,
    scoreOrder: seq<string>)

  /** Both Maps empty, as the constructor leaves them. */
  const Empty := Annotations(map[], [], map[], [])

  /** `order` lists every key of `m` once, and nothing else. */
  predicate Keyed<V>(m: map<string, V>, order: seq<string>) {
    && (forall i, j :: 0 <= i < j < |order| ==> order[i] != order[j])
    && (forall k :: k in m ==> k in order)
    && (forall i :: 0 <= i < |order| ==> order[i] in m)
  }

  /** What `clamp(s, 0, 1)` can store: NaN, or a number in [0, 1]. */
  predicate InUnit(s: Num) {
    s.NaN? || 0.0 <= s.v <= 1.0
  }

  /**
   * The invariant `note` and `setScore` keep: the orders match the Maps, a
   * reason list is never empty, and every stored score is NaN or in [0, 1].
   */
  predicate Valid(a: Annotations) {
    && Keyed(a.reasons, a.reasonOrder)
    && Keyed(a.scores, a.scoreOrder)
    && (forall id :: id in a.reasons ==> a.reasons[id] != [])
    && (forall id :: id in a.scores ==> InUnit(a.scores[id]))
  }

  /** Every key of both Maps is one of `ids`. */
  predicate Within(a: Annotations, ids: set<string>) {
    && (forall id :: id in a.reasons ==> id in ids)
    && (forall id :: id in a.scores ==> id in ids)
  }

  lemma EmptyValid(ids: set<string>)
    ensures Valid(Empty) && Within(Empty, ids)
  {}

  /** `reasons.get(id) || []`. */
  function ReasonsOf(a: Annotations, id: string): seq<Reason> {
    if id in a.reasons then a.reasons[id] else []
  }

  /** `scores.get(id) || 0`: an absent, NaN or zero score reads as 0. */
  function Prior(a: Annotations, id: string): (p: real)
    ensures id !in a.scores || a.scores[id].NaN? ==> p == 0.0
    ensures id in a.scores && a.scores[id].Fin? ==> p == a.scores[id].v
    ensures Valid(a) ==> 0.0 <= p <= 1.0
  {
    if id in a.scores && a.scores[id].Fin? then a.scores[id].v else 0.0
  }

  /** `note(id, m)`: appends `m` to the list of `id`, creating the entry when it is new. */
  function Note(a: Annotations, id: string, m: Reason): (b: Annotations)
    ensures ReasonsOf(b, id) == ReasonsOf(a, id) + [m]
    ensures forall x :: x != id ==> ReasonsOf(b, x) == ReasonsOf(a, x)
    ensures forall x :: x in b.reasons <==> x in a.reasons || x == id
    ensures b.scores == a.scores && b.scoreOrder == a.scoreOrder
    ensures Valid(a) ==> Valid(b)
    ensures forall ids: set<string> :: Within(a, ids) && id in ids ==> Within(b, ids)
  {
    if id in a.reasons then a.(reasons := a.reasons[id := a.reasons[id] + [m]])
    else a.(reasons := a.reasons[id := [m]], reasonOrder := a.reasonOrder + [id])
  }

  /** `note(id, m)` for each `m` of `ms` in turn. */
  function NoteAll(a: Annotations, id: string, ms: seq<Reason>): (b: Annotations)
    ensures ReasonsOf(b, id) == ReasonsOf(a, id) + ms
    ensures forall x :: x != id ==> ReasonsOf(b, x) == ReasonsOf(a, x)
    ensures forall x :: x in b.reasons <==> x in a.reasons || (x == id && ms != [])
    ensures b.scores == a.scores && b.scoreOrder == a.scoreOrder
    ensures Valid(a) ==> Valid(b)
    ensures forall ids: set<string> :: Within(a, ids) && id in ids ==> Within(b, ids)
    decreases |ms|
  {
    if ms == [] then a
    else
      var b := NoteAll(a, id, ms[..|ms| - 1]);
      assert ms == ms[..|ms| - 1] + [ms[|ms| - 1]];
      Note(b, id, ms[|ms| - 1])
  }

  /** `setScore(id, s)`: stores `clamp(s, 0, 1)`, creating the entry when it is new. */
  function SetScore(a: Annotations, id: string, s: Num): (b: Annotations)
    ensures id in b.scores && b.scores[id] == Clamp(s, 0.0, 1.0)
    ensures b.scores[id].NaN? <==> s.NaN?
    ensures s.Fin? && 0.0 <= s.v <= 1.0 ==> b.scores[id] == s
    ensures forall x :: x != id ==> (x in b.scores <==> x in a.scores)
    ensures forall x :: x != id && x in a.scores ==> b.scores[x] == a.scores[x]
    ensures b.reasons == a.reasons && b.reasonOrder == a.reasonOrder
    ensures Valid(a) ==> Valid(b)
    ensures forall ids: set<string> :: Within(a, ids) && id in ids ==> Within(b, ids)
  {
    var c := Clamp(s, 0.0, 1.0);
    if id in a.scores then a.(scores := a.scores[id := c])
    else a.(scores := a.scores[id := c], scoreOrder := a.scoreOrder + [id])
  }
}
