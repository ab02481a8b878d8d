/**
 * The progress map the topics page and the dashboard read their counts from: id -> lessons
 * completed, looked up with a default of 0. The dashboard fills it with a `forEach` over its
 * module rows in row order, so a later row for the same id overwrites an earlier one.
 */
module ProgressMap {

  /** `progressMap[id] || 0`: the completed count of an id, 0 when no row carried it. */
  function CountOf(progress: map<int, int>, id: int): (n: int)
    ensures id in progress ==> n == progress[id]
    ensures id !in progress ==> n == 0
  {
    if id in progress then progress[id] else 0
  }

  /** A query row reduced to the two columns the map uses: (id, lessons_completed). */
  type Entry = (int, int)

  /** Row j is the last row (among the first n) that carries its id. */
  ghost predicate LastAmong(rows: seq<Entry>, j: int, n: int)
    requires 0 <= j < n <= |rows|
  {
    forall l :: j < l < n ==> rows[l].0 != rows[j].0
  }

  /** `rows.forEach(p => { progressMap[p.id] = p.lessons_completed })`. */
  method Build(rows: seq<Entry>) returns (m: map<int, int>)
    ensures m.Keys == set j | 0 <= j < |rows| :: rows[j].0
    ensures forall j :: 0 <= j < |rows| && LastAmong(rows, j, |rows|) ==> m[rows[j].0] == rows[j].1
  {
    m := map[];
    var i := 0;
    while i < |rows|
      invariant 0 <= i <= |rows|
      invariant m.Keys == set j | 0 <= j < i :: rows[j].0
      invariant forall j :: 0 <= j < i && LastAmong(rows, j, i) ==> m[rows[j].0] == rows[j].1
    {
      m := m[rows[i].0 := rows[i].1];
      i := i + 1;
    }
  }
}
