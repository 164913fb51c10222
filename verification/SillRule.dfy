/** Which storey an element belongs to by its box alone: the level below its sill, or the one it crosses. */
module SillRule {

  import opened Wrappers
  import opened WindowFrames

  const LEVEL_EPS: real := 0.01

  /** A list comprehension over the levels. */
  function Select(levels: seq<Level>, keep: Level -> bool): seq<Level> {
    if levels == [] then []
    else (if keep(levels[0]) then [levels[0]] else []) + Select(levels[1..], keep)
  }

  function AtOrBelow(minZ: real): Level -> bool { (l: Level) => l.elevation <= minZ + LEVEL_EPS }

  function CrossedBy(minZ: real, maxZ: real): Level -> bool { (l: Level) => minZ + LEVEL_EPS < l.elevation < maxZ - LEVEL_EPS }

  function StoreyBySill(minZ: Option<real>, maxZ: Option<real>, levels: seq<Level>): Option<Level> {
    if minZ.None? || maxZ.None? || levels == [] then None
    else
      var below := Select(levels, AtOrBelow(minZ.value));
      var base := if below != [] then below[|below| - 1] else levels[0];
      var crossed := Select(levels, CrossedBy(minZ.value, maxZ.value));
      if crossed == [] then Some(base)
      else
        var lowest := crossed[0];
        var height := maxZ.value - minZ.value;
        if height > 0.0 && lowest.elevation - minZ.value > height / 2.0 then Some(base) else Some(lowest)
  }

  predicate Rising(levels: seq<Level>) {
    forall i, j :: 0 <= i < j < |levels| ==> levels[i].elevation < levels[j].elevation
  }

  /** The first level a test keeps, when it keeps none before place k and does keep that one. */
  lemma {:induction false} FirstKept(levels: seq<Level>, keep: Level -> bool, k: nat)
    requires k <= |levels| && forall j :: 0 <= j < k ==> !keep(levels[j])
    ensures k < |levels| && keep(levels[k]) ==> Select(levels, keep) != [] && Select(levels, keep)[0] == levels[k]
    ensures k == |levels| ==> Select(levels, keep) == []
  {
    if k > 0 {
      FirstKept(levels[1..], keep, k - 1);
    }
  }

  lemma {:induction false} LastKept(levels: seq<Level>, keep: Level -> bool, k: nat)
    requires k < |levels| && keep(levels[k]) && forall j :: k < j < |levels| ==> !keep(levels[j])
    ensures Select(levels, keep) != [] && Select(levels, keep)[|Select(levels, keep)| - 1] == levels[k]
  {
    if k > 0 {
      LastKept(levels[1..], keep, k - 1);
    } else {
      forall j | 0 <= j < |levels| - 1
        ensures !keep(levels[1..][j])
      {
        assert levels[1..][j] == levels[j + 1];
      }
      FirstKept(levels[1..], keep, |levels| - 1);
    }
  }

  /** The last listed level at or below the sill, or the first listed where there is none. */
  predicate IsBase(levels: seq<Level>, minZ: real, base: nat) {
    && base < |levels|
    && (AtOrBelow(minZ)(levels[base]) || base == 0)
    && (forall k :: base < k < |levels| ==> !AtOrBelow(minZ)(levels[k]))
  }

  /** The first listed level that is crossed, or the end of the list. */
  predicate IsFirstCrossed(levels: seq<Level>, minZ: real, maxZ: real, first: nat) {
    && first <= |levels|
    && (first < |levels| ==> CrossedBy(minZ, maxZ)(levels[first]))
    && (forall k :: 0 <= k < first ==> !CrossedBy(minZ, maxZ)(levels[k]))
  }

  lemma {:induction false} BaseExists(levels: seq<Level>, minZ: real) returns (base: nat)
    requires levels != []
    ensures IsBase(levels, minZ, base)
  {
    var n := |levels| - 1;
    if n == 0 || AtOrBelow(minZ)(levels[n]) {
      base := n;
    } else {
      base := BaseExists(levels[..n], minZ);
    }
  }

  lemma {:induction false} FirstCrossedExists(levels: seq<Level>, minZ: real, maxZ: real) returns (first: nat)
    ensures IsFirstCrossed(levels, minZ, maxZ, first)
  {
    if levels == [] || CrossedBy(minZ, maxZ)(levels[0]) {
      first := 0;
    } else {
      var rest := FirstCrossedExists(levels[1..], minZ, maxZ);
      first := rest + 1;
      assert forall k :: 1 <= k < |levels| ==> levels[k] == levels[1..][k - 1];
    }
  }

  lemma BaseIsKept(levels: seq<Level>, minZ: real, base: nat)
    requires IsBase(levels, minZ, base)
    ensures var below := Select(levels, AtOrBelow(minZ));
            (if below != [] then below[|below| - 1] else levels[0]) == levels[base]
  {
    if AtOrBelow(minZ)(levels[base]) {
      LastKept(levels, AtOrBelow(minZ), base);
    } else {
      FirstKept(levels, AtOrBelow(minZ), |levels|);
    }
  }

  /** However the levels are listed, the answer is the base, or else the first level crossed, when at least
    * half of the element's height is above it. Where they are listed rising, that level is the very next
    * one up, so no storey is skipped, or both are the lowest. */
  lemma SillRuleByPlace(minZ: real, maxZ: real, levels: seq<Level>) returns (base: nat, first: nat)
    requires levels != []
    ensures IsBase(levels, minZ, base) && IsFirstCrossed(levels, minZ, maxZ, first)
    ensures var up := first < |levels| && maxZ - levels[first].elevation >= levels[first].elevation - minZ;
            StoreyBySill(Some(minZ), Some(maxZ), levels) == Some(if up then levels[first] else levels[base])
    ensures Rising(levels) && first < |levels| ==> first == base + 1 || (first == 0 && base == 0)
  {
    base := BaseExists(levels, minZ);
    first := FirstCrossedExists(levels, minZ, maxZ);
    BaseIsKept(levels, minZ, base);
    FirstKept(levels, CrossedBy(minZ, maxZ), first);
    assert base + 1 < |levels| ==> !AtOrBelow(minZ)(levels[base + 1]);
  }

  /** An element that starts below every level: the first listed, or the first crossed with at least half of
    * its height above that; on rising levels always the lowest. */
  lemma BelowEveryLevel(minZ: real, maxZ: real, levels: seq<Level>) returns (first: nat)
    requires levels != [] && forall k :: 0 <= k < |levels| ==> !AtOrBelow(minZ)(levels[k])
    ensures IsFirstCrossed(levels, minZ, maxZ, first)
    ensures StoreyBySill(Some(minZ), Some(maxZ), levels) == Some(levels[0])
       <==> (first == |levels| || levels[first] == levels[0]
             || maxZ - levels[first].elevation < levels[first].elevation - minZ)
    ensures Rising(levels) ==> StoreyBySill(Some(minZ), Some(maxZ), levels) == Some(levels[0])
  {
    var base;
    base, first := SillRuleByPlace(minZ, maxZ, levels);
  }
}
