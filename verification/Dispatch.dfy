/** The table-driven dispatcher: a sorted table of range bounds searched by bisection, and a registry of
    policies keyed by bitmask. */
module Dispatch {

  datatype RangeConfig = RangeConfig(upperBound: int, bitFlag: bv64)

  /** A composite bitmask, the registry's key. */
  datatype Mask = Mask(bits: bv64)

  /** What a registered action does to the session it is called with. */
  datatype Policy = SetBandwidth(bandwidth: int)

  class SubscriberSession {
    const imsi: string
    const ip: string
    const tariffClass: string
    const isActive: bool
    var currentBandwidth: int

    constructor (imsi: string, ip: string, tariffClass: string, isActive: bool, bandwidth: int)
      ensures this.imsi == imsi && this.ip == ip && this.tariffClass == tariffClass && this.isActive == isActive
      ensures currentBandwidth == bandwidth
    {
      this.imsi, this.ip, this.tariffClass, this.isActive := imsi, ip, tariffClass, isActive;
      currentBandwidth := bandwidth;
    }
  }

  predicate Sorted(table: seq<RangeConfig>) {
    forall i, j :: 0 <= i < j < |table| ==> table[i].upperBound <= table[j].upperBound
  }

  ghost predicate DistinctBounds(table: seq<RangeConfig>) {
    forall i, j :: 0 <= i < j < |table| ==> table[i].upperBound != table[j].upperBound
  }

  /** The cascade the table replaces: the first bound that reaches the value, or else the last range. */
  function Cascade(table: seq<RangeConfig>, value: int): bv64 {
    if table == [] then 0
    else if |table| == 1 || table[0].upperBound >= value then table[0].bitFlag
    else Cascade(table[1..], value)
  }

  /** How many bounds lie below the value. */
  ghost function Below(table: seq<RangeConfig>, value: int): (n: nat)
    ensures n <= |table|
  {
    if table == [] || table[0].upperBound >= value then 0 else 1 + Below(table[1..], value)
  }

  /** On a sorted table the cascade answers with the least bound that reaches the value, clamped to the last
      range. */
  lemma {:induction false} CascadeIsLeastBound(table: seq<RangeConfig>, value: int)
    requires Sorted(table) && table != []
    ensures
      var i := if Below(table, value) < |table| then Below(table, value) else |table| - 1;
      && Cascade(table, value) == table[i].bitFlag
      && (forall j :: 0 <= j < i ==> table[j].upperBound < value)
      && (table[i].upperBound >= value || i == |table| - 1)
    ensures forall j :: 0 <= j < Below(table, value) ==> table[j].upperBound < value
    ensures forall j :: Below(table, value) <= j < |table| ==> table[j].upperBound >= value
  {
    if |table| > 1 && table[0].upperBound < value {
      CascadeIsLeastBound(table[1..], value);
      assert forall j :: 0 < j < |table| ==> table[j] == table[1..][j - 1];
    }
  }

  lemma {:induction false} BelowIsBoundary(table: seq<RangeConfig>, value: int, i: nat)
    requires i <= |table|
    requires forall k :: 0 <= k < i ==> table[k].upperBound < value
    requires forall k :: i <= k < |table| ==> table[k].upperBound >= value
    ensures Below(table, value) == i
  {
    if i > 0 {
      BelowIsBoundary(table[1..], value, i - 1);
    }
  }

  /** A larger value never falls into an earlier range. */
  lemma {:induction false} RangesAreMonotone(table: seq<RangeConfig>, value: int, larger: int)
    requires value <= larger
    ensures Below(table, value) <= Below(table, larger)
  {
    if table != [] {
      RangesAreMonotone(table[1..], value, larger);
    }
  }

  lemma SameHead(s: seq<RangeConfig>, t: seq<RangeConfig>)
    requires Sorted(s) && Sorted(t) && DistinctBounds(s) && multiset(s) == multiset(t) && s != [] && t != []
    ensures s[0] == t[0]
  {
    assert s[0] in multiset(t) && t[0] in multiset(s);
    var j :| 0 <= j < |t| && t[j] == s[0];
    var i :| 0 <= i < |s| && s[i] == t[0];
    assert s[0].upperBound <= s[i].upperBound && t[0].upperBound <= t[j].upperBound;
  }

  lemma TailMultiset(s: seq<RangeConfig>)
    requires s != []
    ensures multiset(s[1..]) == multiset(s) - multiset{s[0]}
  {
    assert s == [s[0]] + s[1..];
  }

  /** Two sorted tables of the same ranges with distinct bounds are the same table, so the order in which the
      ranges were added does not matter. */
  lemma {:induction false} SortedTableIsUnique(s: seq<RangeConfig>, t: seq<RangeConfig>)
    requires Sorted(s) && Sorted(t) && DistinctBounds(s) && multiset(s) == multiset(t)
    ensures s == t
  {
    assert |s| == |multiset(s)| && |t| == |multiset(t)|;
    if s != [] {
      SameHead(s, t);
      TailMultiset(s);
      TailMultiset(t);
      SortedTableIsUnique(s[1..], t[1..]);
      assert s == [s[0]] + s[1..] && t == [t[0]] + t[1..];
    }
  }

  function InsertByBound(t: seq<RangeConfig>, r: RangeConfig): seq<RangeConfig> {
    if t == [] || r.upperBound < t[0].upperBound then [r] + t else [t[0]] + InsertByBound(t[1..], r)
  }

  lemma {:induction false} InsertSorted(t: seq<RangeConfig>, r: RangeConfig, least: int)
    requires Sorted(t) && least <= r.upperBound && forall i :: 0 <= i < |t| ==> least <= t[i].upperBound
    ensures Sorted(InsertByBound(t, r))
    ensures forall i :: 0 <= i < |InsertByBound(t, r)| ==> least <= InsertByBound(t, r)[i].upperBound
  {
    if t != [] && r.upperBound >= t[0].upperBound {
      InsertSorted(t[1..], r, t[0].upperBound);
    }
  }

  lemma {:induction false} InsertMultiset(t: seq<RangeConfig>, r: RangeConfig)
    ensures multiset(InsertByBound(t, r)) == multiset(t) + multiset{r}
  {
    if t != [] && r.upperBound >= t[0].upperBound {
      InsertMultiset(t[1..], r);
      TailMultiset(t);
    }
  }

  /** The library sort: the same ranges in order of their bounds (ties in any order). */
  method SortByBound(s: seq<RangeConfig>) returns (t: seq<RangeConfig>)
    ensures Sorted(t) && multiset(t) == multiset(s)
  {
    t := [];
    for n := 0 to |s|
      invariant Sorted(t) && multiset(t) == multiset(s[..n])
    {
      InsertMultiset(t, s[n]);
      InsertSorted(t, s[n], if t == [] || s[n].upperBound < t[0].upperBound then s[n].upperBound else t[0].upperBound);
      assert s[..n + 1] == s[..n] + [s[n]];
      t := InsertByBound(t, s[n]);
    }
    assert s[..|s|] == s;
  }

  class TableDrivenEngine {
    var rangeBounds: seq<RangeConfig>
    var registry: map<Mask, Policy>

    ghost predicate Valid()
      reads this
    {
      Sorted(rangeBounds)
    }

    constructor ()
      ensures Valid() && rangeBounds == [] && registry == map[]
    {
      rangeBounds, registry := [], map[];
    }

    method AddRangeConfig(upperBound: int, bitFlag: bv64)
      modifies this`rangeBounds
      ensures Valid()
      ensures multiset(rangeBounds) == multiset(old(rangeBounds)) + multiset{RangeConfig(upperBound, bitFlag)}
    {
      rangeBounds := rangeBounds + [RangeConfig(upperBound, bitFlag)];
      rangeBounds := SortByBound(rangeBounds);
    }

    method RegisterAction(bitmask: Mask, action: Policy)
      modifies this`registry
      ensures registry == old(registry)[bitmask := action]
    {
      registry := registry[bitmask := action];
    }

    /** The library's binary search: the least index whose bound reaches the value. */
    method Search(value: int) returns (index: nat)
      requires Valid()
      ensures index == Below(rangeBounds, value)
    {
      var i, j := 0, |rangeBounds|;
      while i < j
        invariant 0 <= i <= j <= |rangeBounds|
        invariant forall k :: 0 <= k < i ==> rangeBounds[k].upperBound < value
        invariant forall k :: j <= k < |rangeBounds| ==> rangeBounds[k].upperBound >= value
      {
        var h := (i + j) / 2;
        if rangeBounds[h].upperBound >= value {
          j := h;
        } else {
          i := h + 1;
        }
      }
      index := i;
      BelowIsBoundary(rangeBounds, value, i);
    }

    /** Bisection with the clamp gives what the cascade gives. */
    method EvaluateRange(value: int) returns (flag: bv64)
      requires Valid()
      ensures flag == Cascade(rangeBounds, value)
    {
      if |rangeBounds| == 0 {
        return 0;
      }
      var idx := Search(value);
      CascadeIsLeastBound(rangeBounds, value);
      if idx >= |rangeBounds| {
        idx := |rangeBounds| - 1;
      }
      return rangeBounds[idx].bitFlag;
    }

    /** An unregistered mask is an error and touches nothing. */
    method Execute(bitmask: Mask, session: SubscriberSession) returns (ok: bool)
      modifies session`currentBandwidth
      ensures ok <==> bitmask in registry
      ensures session.currentBandwidth == if ok then registry[bitmask].bandwidth else old(session.currentBandwidth)
    {
      if bitmask !in registry {
        return false;
      }
      session.currentBandwidth := registry[bitmask].bandwidth;
      return true;
    }
  }
}
