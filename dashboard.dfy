/**
 * Dashboard: the three fixed modules with the user's module progress and the
 * single-predecessor lock, the `xp % 300` bar and the total-lessons figure.
 */
module Dashboard {
  import opened Wrappers
  import opened Backend
  import opened Routes
  import ProgressMap

  /** A learning module; `completed` and `locked` are filled in from the progress map. */
  datatype Module = Module(id: int, title: string, description: string, lessons: int, completed: int, locked: bool)

  const BaseModules: seq<Module> := [
    Module(1, "Fundamentos das Obrigações", "Conceitos básicos e fontes das obrigações no Direito Civil", 10, 0, false),
    Module(2, "Adimplemento e Extinção", "Formas de cumprimento e extinção das obrigações", 8, 0, true),
    Module(3, "Inadimplemento", "Mora, perdas e danos, e cláusula penal", 12, 0, true)
  ]

  /** The `map` callback for the module at `index`. */
  function Apply(modules: seq<Module>, progress: map<int, int>, index: int): Module
    requires 0 <= index < |modules|
  {
    var m := modules[index];
    var completed := ProgressMap.CountOf(progress, m.id);
    var locked := if index == 0 then false
                  else ProgressMap.CountOf(progress, modules[index - 1].id) < modules[index - 1].lessons;
    m.(completed := completed, locked := locked)
  }

  /**
   * `baseModules.map(...)`: module 0 is open; module i > 0 is locked exactly when the count of
   * module i - 1 (default 0) is below its lessons; each count is the map value or 0 and every other
   * field is the base module's.
   */
  function Modules(modules: seq<Module>, progress: map<int, int>): (r: seq<Module>)
    ensures |r| == |modules|
    ensures |r| > 0 ==> !r[0].locked
    ensures forall i :: 0 < i < |r| ==>
      (r[i].locked <==> ProgressMap.CountOf(progress, modules[i - 1].id) < modules[i - 1].lessons)
    ensures forall i :: 0 <= i < |r| ==>
      r[i].completed == ProgressMap.CountOf(progress, modules[i].id) &&
      r[i].(completed := 0, locked := false) == modules[i].(completed := 0, locked := false)
  {
    seq(|modules|, i requires 0 <= i < |modules| => Apply(modules, progress, i))
  }

  /** The query rows of module_progress for one user, as (module_id, lessons_completed). */
  function Entries(rows: seq<ModuleProgressRow>): (e: seq<ProgressMap.Entry>)
    ensures |e| == |rows|
    ensures forall i :: 0 <= i < |rows| ==> e[i] == (rows[i].moduleId, rows[i].lessonsCompleted)
  {
    seq(|rows|, i requires 0 <= i < |rows| => (rows[i].moduleId, rows[i].lessonsCompleted))
  }

  /**
   * The dashboard's data load: without a session go to "/auth"; otherwise the progress map has
   * the ids of the user's module_progress rows, each holding the count of the last row with that id.
   */
  method LoadProgress(session: Option<UserId>, db: Db) returns (r: Option<map<int, int>>)
    ensures session.None? <==> r.None?
    ensures session.Some? ==>
      var rows := if session.value in db.moduleProgress then db.moduleProgress[session.value] else [];
      && r.value.Keys == (set j | 0 <= j < |rows| :: rows[j].moduleId)
      && forall j :: 0 <= j < |rows| && (forall l :: j < l < |rows| ==> rows[l].moduleId != rows[j].moduleId)
           ==> r.value[rows[j].moduleId] == rows[j].lessonsCompleted
  {
    if session.None? {
      return None;
    }
    var user := session.value;
    var rows := if user in db.moduleProgress then db.moduleProgress[user] else [];
    var entries := Entries(rows);
    var progressMap := ProgressMap.Build(entries);
    assert forall j :: 0 <= j < |rows| ==> entries[j].0 == rows[j].moduleId;
    assert (set j | 0 <= j < |entries| :: entries[j].0) == (set j | 0 <= j < |rows| :: rows[j].moduleId);
    forall j | 0 <= j < |rows| && (forall l :: j < l < |rows| ==> rows[l].moduleId != rows[j].moduleId)
      ensures progressMap[rows[j].moduleId] == rows[j].lessonsCompleted
    {
      assert ProgressMap.LastAmong(entries, j, |entries|);
    }
    r := Some(progressMap);
  }

  /** JavaScript's `a % b`: the remainder takes the sign of the dividend. */
  function JsRem(a: int, b: int): (r: int)
    requires b > 0
    ensures a >= 0 ==> r == a % b && 0 <= r < b
    ensures a < 0 ==> -b < r <= 0
    ensures (a - r) % b == 0
  {
    if a >= 0 then
      MultipleMod(a / b, b);
      assert a - a % b == b * (a / b);
      a % b
    else
      var q := (-a) / b;
      MultipleMod(-q, b);
      assert a + (-a) % b == b * -q;
      -((-a) % b)
  }

  /** A multiple of `b` leaves no remainder. */
  lemma MultipleMod(k: int, b: int)
    requires b > 0
    ensures (b * k) % b == 0
  {
    var q := (b * k) / b;
    assert b * (k - q) == (b * k) % b;
    MulBounds(b, k - q);
  }

  /** A positive `b` times a non-zero integer is at least `b` away from 0. */
  lemma MulBounds(b: int, d: int)
    requires b > 0
    ensures d >= 1 ==> b * d >= b
    ensures d <= -1 ==> b * d <= -b
  {
    if d >= 1 {
      assert b * d == b + b * (d - 1);
    } else if d <= -1 {
      assert b * d == -b + b * (d + 1);
    }
  }

  /** The "to the next level" figure: `userXP % 300`, in [0, 300) for non-negative XP. */
  function BarXp(xp: int): (r: int)
    ensures xp >= 0 ==> 0 <= r < 300 && r == xp % 300
    ensures -300 < r < 300
  {
    JsRem(xp, 300)
  }

  /** The bar's value, `(userXP % 300) / 3`, as a percentage. */
  function BarValue(xp: int): (v: real)
    ensures xp >= 0 ==> 0.0 <= v < 100.0
  {
    BarXp(xp) as real / 3.0
  }

  /** The sum of a sequence of counts, as `reduce((sum, val) => sum + val, 0)` computes it. */
  function SumSeq(s: seq<int>): int {
    if s == [] then 0 else s[0] + SumSeq(s[1..])
  }

  /** `ks` lists every key of `keys` exactly once, in some order. */
  ghost predicate Enumerates(ks: seq<int>, keys: set<int>) {
    && (forall i, j :: 0 <= i < j < |ks| ==> ks[i] != ks[j])
    && (set i | 0 <= i < |ks| :: ks[i]) == keys
  }

  /** The map's values read in the order `ks` lists the keys. */
  function ValuesAlong(progress: map<int, int>, ks: seq<int>): (vs: seq<int>)
    requires forall i :: 0 <= i < |ks| ==> ks[i] in progress
    ensures |vs| == |ks| && forall i :: 0 <= i < |ks| ==> vs[i] == progress[ks[i]]
  {
    seq(|ks|, i requires 0 <= i < |ks| => progress[ks[i]])
  }

  /**
   * `Object.values(completedModules).reduce(...)`: the sum of the values, read in the order `ks`
   * lists the map's keys.
   */
  ghost function TotalLessons(progress: map<int, int>, ks: seq<int>): int
    requires Enumerates(ks, progress.Keys)
  {
    SumSeq(ValuesAlong(progress, ks))
  }

  /** Taking one element out of a sum. */
  lemma {:induction false} SumRemoveAt(s: seq<int>, i: nat)
    requires i < |s|
    ensures SumSeq(s) == s[i] + SumSeq(s[..i] + s[i + 1..])
  {
    if i > 0 {
      SumRemoveAt(s[1..], i - 1);
      assert s[1..][..i - 1] + s[1..][i..] == (s[..i] + s[i + 1..])[1..];
    } else {
      assert s[..i] + s[i + 1..] == s[1..];
    }
  }

  /** The total is the same whatever order the keys are read in. */
  lemma {:induction false} TotalOrderIndependent(progress: map<int, int>, keys: set<int>, ks1: seq<int>, ks2: seq<int>)
    requires keys <= progress.Keys && Enumerates(ks1, keys) && Enumerates(ks2, keys)
    ensures SumSeq(ValuesAlong(progress, ks1)) == SumSeq(ValuesAlong(progress, ks2))
    decreases |ks1|
  {
    if ks1 != [] {
      var k := ks1[0];
      assert k in keys;
      var i :| 0 <= i < |ks2| && ks2[i] == k;
      var rest2 := ks2[..i] + ks2[i + 1..];
      var rest1 := ks1[1..];
      var restKeys := keys - {k};
      assert Enumerates(rest1, restKeys) by {
        assert forall j :: 0 <= j < |rest1| ==> rest1[j] == ks1[j + 1];
        forall x | x in restKeys
          ensures x in (set j | 0 <= j < |rest1| :: rest1[j])
        {
          var j :| 0 <= j < |ks1| && ks1[j] == x;
          assert rest1[j - 1] == x;
        }
      }
      assert Enumerates(rest2, restKeys) by {
        assert forall j :: 0 <= j < |rest2| ==> rest2[j] == (if j < i then ks2[j] else ks2[j + 1]);
        forall x | x in restKeys
          ensures x in (set j | 0 <= j < |rest2| :: rest2[j])
        {
          var j :| 0 <= j < |ks2| && ks2[j] == x;
          assert j != i;
          if j < i { assert rest2[j] == x; } else { assert rest2[j - 1] == x; }
        }
      }
      var vs2 := ValuesAlong(progress, ks2);
      SumRemoveAt(vs2, i);
      assert vs2[..i] + vs2[i + 1..] == ValuesAlong(progress, rest2);
      assert ValuesAlong(progress, ks1)[1..] == ValuesAlong(progress, rest1);
      TotalOrderIndependent(progress, restKeys, rest1, rest2);
    } else if ks2 != [] {
      EnumeratedInKeys(ks2, keys, 0);
      assert false;
    }
  }

  lemma EnumeratedInKeys(ks: seq<int>, keys: set<int>, i: nat)
    requires Enumerates(ks, keys) && i < |ks|
    ensures ks[i] in keys
  {
  }

  /** With no negative count the total is at least any single count. */
  lemma {:induction false} TotalAtLeastEach(s: seq<int>, i: nat)
    requires i < |s| && forall j :: 0 <= j < |s| ==> s[j] >= 0
    ensures SumSeq(s) >= s[i] >= 0
  {
    SumRemoveAt(s, i);
    SumNonNegative(s[..i] + s[i + 1..]);
  }

  lemma {:induction false} SumNonNegative(s: seq<int>)
    requires forall j :: 0 <= j < |s| ==> s[j] >= 0
    ensures SumSeq(s) >= 0
  {
    if s != [] {
      SumNonNegative(s[1..]);
    }
  }

  /** An open module's bar, `(module.completed / module.lessons) * 100`, not clamped at 100. */
  function ModuleBarValue(m: Module): (v: real)
    requires m.lessons >= 1
    ensures v * m.lessons as real == m.completed as real * 100.0
    ensures v >= 100.0 <==> m.completed >= m.lessons
  {
    var q := m.completed as real / m.lessons as real;
    assert q * m.lessons as real == m.completed as real;
    q * 100.0
  }

  /** On the shown modules, a module is open exactly when the previous module's bar is full. */
  lemma UnlockedIffPreviousBarFull(progress: map<int, int>, i: int)
    requires 0 < i < |BaseModules|
    ensures var shown := Modules(BaseModules, progress);
      !shown[i].locked <==> ModuleBarValue(shown[i - 1]) >= 100.0
  {
    var shown := Modules(BaseModules, progress);
    assert shown[i - 1].lessons == BaseModules[i - 1].lessons by {
      assert shown[i - 1].(completed := 0, locked := false) == BaseModules[i - 1].(completed := 0, locked := false);
    }
  }

  /** A click on a locked module does nothing; otherwise it opens the module's lesson. */
  function ModuleClick(m: Module): (r: Option<Route>)
    ensures m.locked <==> r.None?
    ensures r.Some? ==> r.value == LessonOf(m.id, None)
  {
    if m.locked then None else Some(LessonOf(m.id, None))
  }
}
