/** Counters kept in a plain object keyed by strings, the idiom
    `counts[k] = (counts[k] || 0) + 1`, and the sum of their values
    (`Object.values(counts).reduce((a, b) => a + b, 0)`). */
module Counters {

  /** One more occurrence of `k`: `m[k] = (m[k] || 0) + 1`. */
  function Bump(m: map<string, nat>, k: string): (r: map<string, nat>)
    ensures r.Keys == m.Keys + {k}
    ensures k in m ==> r[k] == m[k] + 1
    ensures k !in m ==> r[k] == 1
    ensures forall j | j in m && j != k :: r[j] == m[j]
  {
    m[k := (if k in m then m[k] else 0) + 1]
  }

  /** The counter obtained by bumping, from an empty object, every key of `ks` in order. */
  function Tally(ks: seq<string>): (r: map<string, nat>)
    ensures forall k :: k in r <==> k in ks
    ensures forall k | k in r :: r[k] == multiset(ks)[k]
  {
    if ks == [] then map[]
    else
      var init := ks[..|ks| - 1];
      assert ks == init + [ks[|ks| - 1]];
      Bump(Tally(init), ks[|ks| - 1])
  }

  /** Tallying one more key bumps its counter. */
  lemma TallySnoc(ks: seq<string>, k: string)
    ensures Tally(ks + [k]) == Bump(Tally(ks), k)
  {
    assert (ks + [k])[..|ks|] == ks;
  }

  /** The sum of all values of a counter. */
  ghost function SumValues(m: map<string, nat>): nat
    decreases |m|
  {
    if |m| == 0 then 0
    else
      var k := SomeKey(m);
      RemoveSize(m, k);
      m[k] + SumValues(m - {k})
  }

  /** A key of a non-empty counter, the one `SumValues` takes out first. */
  ghost function SomeKey(m: map<string, nat>): (k: string)
    requires |m| > 0
    ensures k in m
  {
    assert m.Keys != {};
    var k :| k in m; k
  }

  /** The sum does not depend on which key is taken out first. */
  lemma {:induction false} SumValuesRemove(m: map<string, nat>, k: string)
    requires k in m
    ensures SumValues(m) == m[k] + SumValues(m - {k})
    decreases |m|
  {
    var j := SomeKey(m);
    if j != k {
      RemoveSize(m, j);
      RemoveSize(m, k);
      var mj, mk := m - {j}, m - {k};
      assert k in mj && mj[k] == m[k];
      assert j in mk && mk[j] == m[j];
      SumValuesRemove(mj, k);
      SumValuesRemove(mk, j);
      RemoveCommutes(m, j, k);
    }
  }

  /** Removing two keys gives the same map in either order. */
  lemma RemoveCommutes(m: map<string, nat>, j: string, k: string)
    ensures (m - {j}) - {k} == (m - {k}) - {j}
  {
    assert ((m - {j}) - {k}).Keys == ((m - {k}) - {j}).Keys;
  }

  lemma RemoveSize(m: map<string, nat>, k: string)
    requires k in m
    ensures |m - {k}| == |m| - 1
  {
    assert (m - {k}).Keys == m.Keys - {k};
    assert |m.Keys - {k}| == |m.Keys| - 1;
  }

  /** One bump adds one to the sum. */
  lemma SumValuesBump(m: map<string, nat>, k: string)
    ensures SumValues(Bump(m, k)) == SumValues(m) + 1
  {
    var r := Bump(m, k);
    SumValuesRemove(r, k);
    BumpElsewhere(m, k);
    if k in m {
      SumValuesRemove(m, k);
    } else {
      RemoveAbsent(m, k);
    }
  }

  /** A bump changes no other key. */
  lemma BumpElsewhere(m: map<string, nat>, k: string)
    ensures Bump(m, k) - {k} == m - {k}
  {
    var r := Bump(m, k);
    assert (r - {k}).Keys == (m - {k}).Keys;
  }

  /** Removing a key that is absent changes nothing. */
  lemma RemoveAbsent(m: map<string, nat>, k: string)
    requires k !in m
    ensures m - {k} == m
  {
  }

  /** The values of a tally add up to the number of keys tallied. */
  lemma {:induction false} SumValuesTally(ks: seq<string>)
    ensures SumValues(Tally(ks)) == |ks|
  {
    if ks != [] {
      SumValuesTally(ks[..|ks| - 1]);
      SumValuesBump(Tally(ks[..|ks| - 1]), ks[|ks| - 1]);
    }
  }
}
