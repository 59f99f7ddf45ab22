/**
  The penalty tier derived from a member's scar count: the role level that
  `update_scar_roles` assigns, the role name it looks up in the
  `scar_roles` configuration, and the embed colour `ghiseo` picks from the
  three-entry colour table. None of these is stored; all are functions of
  the count.
 */
module Tier {
  import opened Wrappers
  import opened Decimal

  /** The highest level; every count at or above it shares its tier. */
  const MaxLevel: nat := 3

  /** Colour per level, keyed by the clamped count. */
  const LevelColor: map<nat, int> := map[1 := 0x8B0000, 2 := 0xB30000, 3 := 0x0F0F0F]

  /** The colour used when the clamped count is not a key of the table. */
  const FallbackColor: int := 0x8B0000

  /** The role names of a freshly created configuration, keyed by `str(level)`. */
  const DefaultScarRoles: map<string, string> :=
    map["1" := "Sẹo 1", "2" := "Sẹo 2", "3" := "Sẹo 3"]

  function Min(a: nat, b: nat): nat {
    if a < b then a else b
  }

  /** The role level for `count` scars: none at zero, otherwise the count clamped to 1..3. */
  function Level(count: nat): (r: Option<nat>)
    ensures r.Some? <==> count > 0
    ensures r.Some? ==> 1 <= r.value <= MaxLevel
    ensures r.Some? ==> r.value <= count && (r.value == count || r.value == MaxLevel)
  {
    if count > 0 then Some(Min(count, MaxLevel)) else None
  }

  /** The name of the role to give a member with `count` scars, if the configuration has one. */
  function RoleFor(scarRoles: map<string, string>, count: nat): (r: Option<string>)
    ensures r.Some? ==> count > 0 && r.value in scarRoles.Values
  {
    match Level(count)
    case None => None
    case Some(level) =>
      var key := Digits(level);
      if key in scarRoles then Some(scarRoles[key]) else None
  }

  /** The embed colour for a member who now has `count` scars. */
  function Color(count: nat): (r: int)
    ensures r in LevelColor.Values
    ensures count == 0 ==> r == FallbackColor
    ensures count > 0 ==> Min(count, MaxLevel) in LevelColor && r == LevelColor[Min(count, MaxLevel)]
  {
    var key := Min(count, MaxLevel);
    if key in LevelColor then LevelColor[key] else assert LevelColor[1] == FallbackColor; FallbackColor
  }

  /** Counts at or above the top level are indistinguishable in tier, role and colour. */
  lemma TierSaturates(scarRoles: map<string, string>, a: nat, b: nat)
    requires a >= MaxLevel && b >= MaxLevel
    ensures Level(a) == Level(b) == Some(MaxLevel)
    ensures RoleFor(scarRoles, a) == RoleFor(scarRoles, b)
    ensures Color(a) == Color(b) == 0x0F0F0F
  {
  }

  /** With the default configuration, every positive count has a role, named after its level. */
  lemma DefaultRoles(count: nat)
    ensures count == 0 ==> RoleFor(DefaultScarRoles, count) == None
    ensures count > 0 ==> RoleFor(DefaultScarRoles, count) == Some("Sẹo " + Digits(Min(count, MaxLevel)))
  {
    if count > 0 {
      var level := Min(count, MaxLevel);
      assert Digits(level) == [DigitChar(level)];
      if level == 1 {
        assert Digits(level) == "1" && DefaultScarRoles["1"] == "Sẹo " + "1";
      } else if level == 2 {
        assert Digits(level) == "2" && DefaultScarRoles["2"] == "Sẹo " + "2";
      } else {
        assert Digits(level) == "3" && DefaultScarRoles["3"] == "Sẹo " + "3";
      }
    }
  }

  /** The level is monotone: more scars never lower it. */
  lemma LevelMonotone(a: nat, b: nat)
    requires 0 < a <= b
    ensures Level(a).value <= Level(b).value
  {
  }
}
