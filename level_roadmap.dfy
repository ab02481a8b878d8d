/**
 * LevelRoadmap: the band table of levels, the band the user's XP falls in, and the figures the
 * page shows about the next level.
 */
module LevelRoadmap {
  import opened Wrappers
  import LevelTheme

  /** A band's upper bound: a number, or `Infinity` for the last band. */
  datatype Bound = Finite(n: int) | Infinity

  datatype Band = Band(id: int, name: string, minXp: int, maxXp: Bound)

  const Levels: seq<Band> := [
    Band(1, "Iniciante", 0, Finite(299)),
    Band(2, "Aprendiz", 300, Finite(799)),
    Band(3, "Explorador", 800, Finite(1499)),
    Band(4, "Conhecedor", 1500, Finite(2499)),
    Band(5, "Especialista", 2500, Finite(3999)),
    Band(6, "Mestre", 4000, Finite(9999)),
    Band(7, "Lendário", 10000, Infinity)
  ]

  /** `xp >= l.minXp && xp <= l.maxXp`. */
  predicate InBand(b: Band, xp: int) {
    xp >= b.minXp && (b.maxXp.Finite? ==> xp <= b.maxXp.n)
  }

  /** `levels.find(l => xp >= l.minXp && xp <= l.maxXp)`: the first band containing xp. */
  function FindByXp(bands: seq<Band>, xp: int): (r: Option<Band>)
    ensures r.Some? ==> r.value in bands && InBand(r.value, xp)
    ensures r.None? ==> forall i :: 0 <= i < |bands| ==> !InBand(bands[i], xp)
  {
    if bands == [] then None
    else if InBand(bands[0], xp) then Some(bands[0])
    else FindByXp(bands[1..], xp)
  }

  /** `levels.find(l => l.id === id)`. */
  function FindById(bands: seq<Band>, id: int): (r: Option<Band>)
    ensures r.Some? ==> r.value in bands && r.value.id == id
    ensures r.None? ==> forall i :: 0 <= i < |bands| ==> bands[i].id != id
  {
    if bands == [] then None
    else if bands[0].id == id then Some(bands[0])
    else FindById(bands[1..], id)
  }

  /** Band i has id i + 1, each finite `maxXp + 1` is the next band's `minXp`, and only the last is unbounded. */
  lemma BandsContiguous()
    ensures Levels[0].minXp == 0
    ensures forall i :: 0 <= i < |Levels| ==> Levels[i].id == i + 1
    ensures forall i :: 0 <= i < |Levels| - 1 ==>
      Levels[i].maxXp.Finite? && Levels[i].maxXp.n + 1 == Levels[i + 1].minXp
    ensures Levels[|Levels| - 1].maxXp == Infinity
  {
  }

  /** For xp >= 0 the band found is the one whose id is the threshold-chain level, and it is the only band containing xp. */
  lemma {:induction false} BandAgreesWithThreshold(xp: int)
    requires xp >= 0
    ensures FindByXp(Levels, xp) == Some(Levels[LevelTheme.ThresholdLevel(xp) - 1])
    ensures forall i :: 0 <= i < |Levels| ==> (InBand(Levels[i], xp) <==> i == LevelTheme.ThresholdLevel(xp) - 1)
  {
    var k := LevelTheme.ThresholdLevel(xp) - 1;
    assert InBand(Levels[k], xp);
    BandsContiguous();
    forall i | 0 <= i < |Levels| && i != k
      ensures !InBand(Levels[i], xp)
    {
      if i < k {
        assert Levels[i].maxXp.n < Levels[k].minXp;
      }
    }
    FirstFound(Levels, xp, k);
  }

  /** When band k is the only band containing xp, `find` returns it. */
  lemma {:induction false} FirstFound(bands: seq<Band>, xp: int, k: nat)
    requires k < |bands| && InBand(bands[k], xp)
    requires forall i :: 0 <= i < k ==> !InBand(bands[i], xp)
    ensures FindByXp(bands, xp) == Some(bands[k])
  {
    if k > 0 {
      FirstFound(bands[1..], xp, k - 1);
    }
  }

  /** Negative XP lies in no band, so the page keeps the level it had. */
  lemma NegativeXpNoBand(xp: int)
    requires xp < 0
    ensures FindByXp(Levels, xp) == None
  {
    assert forall i :: 0 <= i < |Levels| ==> Levels[i].minXp >= 0;
    BelowEveryBand(Levels, xp);
  }

  /** XP below every band's lower bound is found in none of them. */
  lemma {:induction false} BelowEveryBand(bands: seq<Band>, xp: int)
    requires forall i :: 0 <= i < |bands| ==> xp < bands[i].minXp
    ensures FindByXp(bands, xp) == None
  {
    if bands != [] {
      BelowEveryBand(bands[1..], xp);
    }
  }

  /** The page's level after loading the profile: the id of the band found, else the level it held. */
  function LoadedLevel(current: int, xp: int): int {
    match FindByXp(Levels, xp)
    case Some(b) => b.id
    case None => current
  }

  /** The roadmap and the theme hook agree on the level of every non-negative XP; negative XP keeps the old level. */
  lemma LoadedLevelIsThreshold(current: int, xp: int)
    ensures xp >= 0 ==> LoadedLevel(current, xp) == LevelTheme.ThresholdLevel(xp)
    ensures xp < 0 ==> LoadedLevel(current, xp) == current
  {
    if xp >= 0 {
      BandAgreesWithThreshold(xp);
      BandsContiguous();
    } else {
      NegativeXpNoBand(xp);
    }
  }

  /** Looking a level up by id finds band id - 1 for the ids 1..7 and nothing otherwise. */
  lemma FindByIdLevels(id: int)
    ensures 1 <= id <= |Levels| ==> FindById(Levels, id) == Some(Levels[id - 1])
    ensures !(1 <= id <= |Levels|) ==> FindById(Levels, id) == None
  {
    BandsContiguous();
    if 1 <= id <= |Levels| {
      FirstWithId(Levels, id, id - 1);
    }
  }

  /** When band k is the first with the given id, lookup by id returns it. */
  lemma {:induction false} FirstWithId(bands: seq<Band>, id: int, k: nat)
    requires k < |bands| && bands[k].id == id
    requires forall i :: 0 <= i < k ==> bands[i].id != id
    ensures FindById(bands, id) == Some(bands[k])
  {
    if k > 0 {
      FirstWithId(bands[1..], id, k - 1);
    }
  }

  /** `getNextLevel`: the band after the current one, or null at the last level or an unknown level. */
  function NextLevel(currentLevel: int): (r: Option<Band>)
    ensures 1 <= currentLevel < |Levels| ==> r == Some(Levels[currentLevel]) && r.value.id == currentLevel + 1
    ensures !(1 <= currentLevel < |Levels|) ==> r.None?
  {
    FindByIdLevels(currentLevel);
    BandsContiguous();
    match FindById(Levels, currentLevel)
    case Some(current) => if current.id < |Levels| then Some(Levels[current.id]) else None
    case None => None
  }

  /** `getProgressToNextLevel`, as an exact percentage; a finite value over an infinite band width is 0. */
  function ProgressToNextLevel(xp: int, currentLevel: int): (r: real)
    ensures r <= 100.0
  {
    match FindById(Levels, currentLevel)
    case None => 0.0
    case Some(current) => ProgressIn(current, xp)
  }

  /** The progress formula over one band; a finite value over an infinite width is 0. */
  function ProgressIn(current: Band, xp: int): (r: real)
    requires current in Levels
    ensures r <= 100.0
  {
    match current.maxXp
    case Infinity => 0.0
    case Finite(maxXp) =>
      var xpInCurrentLevel := xp - current.minXp;
      var xpNeededForLevel := maxXp - current.minXp + 1;
      Min(Share(xpInCurrentLevel, xpNeededForLevel), 100.0)
  }

  /** `(part / whole) * 100` on exact reals. */
  function Share(part: int, whole: int): real
    requires whole != 0
  {
    (part as real / whole as real) * 100.0
  }

  function Min(a: real, b: real): (m: real)
    ensures m <= a && m <= b && (m == a || m == b)
  {
    if a <= b then a else b
  }

  /** For XP inside the current band, below the last level, the progress lies in [0, 100). */
  lemma ProgressInBand(xp: int, currentLevel: int)
    requires 1 <= currentLevel < |Levels| && InBand(Levels[currentLevel - 1], xp)
    ensures 0.0 <= ProgressToNextLevel(xp, currentLevel) < 100.0
  {
    var b := Levels[currentLevel - 1];
    FindByIdLevels(currentLevel);
    assert ProgressToNextLevel(xp, currentLevel) == ProgressIn(b, xp);
    BandProgress(b, xp);
  }

  /** Over a finite band of the table that contains xp, the progress lies in [0, 100). */
  lemma BandProgress(b: Band, xp: int)
    requires b in Levels && b.maxXp.Finite? && InBand(b, xp)
    ensures 0.0 <= ProgressIn(b, xp) < 100.0
  {
    var share := Share(xp - b.minXp, b.maxXp.n - b.minXp + 1);
    BelowHundred(xp - b.minXp, b.maxXp.n - b.minXp + 1);
    assert Min(share, 100.0) == share;
  }

  /**
   * Below the last level the progress is the clamped share of the band already covered. What this
   * adds to the definition is the lookup: `FindById` on levels 1..6 resolves to `Levels[currentLevel - 1]`,
   * and that band's upper bound is finite and not below its lower bound.
   */
  lemma ProgressFormula(xp: int, currentLevel: int)
    requires 1 <= currentLevel < |Levels|
    ensures var b := Levels[currentLevel - 1];
      b.maxXp.Finite? && b.maxXp.n >= b.minXp &&
      ProgressToNextLevel(xp, currentLevel) == Min(Share(xp - b.minXp, b.maxXp.n - b.minXp + 1), 100.0)
  {
    var b := Levels[currentLevel - 1];
    FindByIdLevels(currentLevel);
    assert ProgressToNextLevel(xp, currentLevel) == ProgressIn(b, xp);
    assert b.maxXp.Finite? && b.maxXp.n >= b.minXp by {
      BandsContiguous();
      assert Levels[currentLevel - 1].maxXp.n + 1 == Levels[currentLevel].minXp;
    }
  }

  /** At the last level, and at a level that is not in the table, the progress is 0. */
  lemma ProgressOutsideFiniteBands(xp: int, currentLevel: int)
    requires !(1 <= currentLevel < |Levels|)
    ensures ProgressToNextLevel(xp, currentLevel) == 0.0
  {
    FindByIdLevels(currentLevel);
  }

  /** A share 0 <= part < whole is a percentage in [0, 100). */
  lemma BelowHundred(part: int, whole: int)
    requires 0 <= part < whole
    ensures 0.0 <= Share(part, whole) < 100.0
  {
    var q := part as real / whole as real;
    assert q * whole as real == part as real;
    assert q < 1.0;
  }

  /** `getXpToNextLevel`: the XP still missing before the next band, and 0 at the last or an unknown level. */
  function XpToNextLevel(xp: int, currentLevel: int): (r: int)
    ensures 1 <= currentLevel < |Levels| ==> r == Levels[currentLevel].minXp - xp
    ensures 1 <= currentLevel < |Levels| && InBand(Levels[currentLevel - 1], xp) ==> r > 0
    ensures !(1 <= currentLevel < |Levels|) ==> r == 0
  {
    FindByIdLevels(currentLevel);
    BandsContiguous();
    match FindById(Levels, currentLevel)
    case None => 0
    case Some(current) =>
      if current.id == |Levels| then 0
      else match current.maxXp
        case Finite(maxXp) => maxXp + 1 - xp
        case Infinity => 0
  }

  /** `isPastLevel`: xp above the band's upper bound. */
  predicate IsPast(b: Band, xp: int) {
    b.maxXp.Finite? && xp > b.maxXp.n
  }

  /** `isFutureLevel`: xp below the band's lower bound. */
  predicate IsFuture(b: Band, xp: int) {
    xp < b.minXp
  }

  /** With the level loaded from xp >= 0, lower bands are past, higher ones future, and the current one neither. */
  lemma PastCurrentFuture(xp: int, i: nat)
    requires xp >= 0 && i < |Levels|
    ensures var level := LevelTheme.ThresholdLevel(xp);
      && (Levels[i].id < level <==> IsPast(Levels[i], xp))
      && (Levels[i].id > level <==> IsFuture(Levels[i], xp))
      && (Levels[i].id == level ==> !IsPast(Levels[i], xp) && !IsFuture(Levels[i], xp))
  {
    BandAgreesWithThreshold(xp);
    BandsContiguous();
  }
}
