/** Active-member topologies: validation, the canonical form that is stored in
    etcd, and what an admissible change keeps
    (cluster_control_plane_topology.go). */
module Topologies {
  import opened Wrappers

  datatype Topology = Topology(replicas: int, members: seq<string>)

  /** The candidate whitelist: node name to advertised address. */
  type Whitelist = map<string, string>

  // ---------- names in byte order ----------

  predicate Less(a: string, b: string) {
    if b == [] then false
    else if a == [] then true
    else a[0] < b[0] || (a[0] == b[0] && Less(a[1..], b[1..]))
  }

  /** Byte order: at the first difference the smaller byte decides, else the shorter name. */
  lemma {:induction false} LessIff(a: string, b: string, k: nat)
    requires k <= |a| && k <= |b| && a[..k] == b[..k]
    requires k < |a| && k < |b| ==> a[k] != b[k]
    ensures Less(a, b) <==> if k < |a| && k < |b| then a[k] < b[k] else |a| < |b|
  {
    if k > 0 {
      assert a[0] == a[..k][0] && b[0] == b[..k][0];
      assert a[1..][..k - 1] == a[..k][1..] && b[1..][..k - 1] == b[..k][1..];
      LessIff(a[1..], b[1..], k - 1);
    }
  }

  lemma {:induction false} LessTransitive(a: string, b: string, c: string)
    requires Less(a, b) && Less(b, c)
    ensures Less(a, c)
  {
    if a != [] && a[0] == b[0] == c[0] {
      LessTransitive(a[1..], b[1..], c[1..]);
    }
  }

  lemma {:induction false} LessTotal(a: string, b: string)
    ensures Less(a, b) || a == b || Less(b, a)
    ensures !(Less(a, b) && Less(b, a)) && !Less(a, a)
  {
    if a != [] && b != [] {
      if a[0] == b[0] {
        LessTotal(a[1..], b[1..]);
        assert a == [a[0]] + a[1..] && b == [b[0]] + b[1..];
      }
      LessTotal(a[1..], a[1..]);
    } else if a != [] {
      LessTotal(a[1..], a[1..]);
    }
  }

  /** What strings.TrimSpace removes. */
  predicate IsSpace(c: char) {
    || c in {' ', '\t', '\n', '\r', '\U{000B}', '\U{000C}', '\U{0085}', '\U{00A0}'}
    || '\U{2000}' <= c <= '\U{200A}'
    || c in {'\U{1680}', '\U{2028}', '\U{2029}', '\U{202F}', '\U{205F}', '\U{3000}'}
  }

  function TrimLeft(s: string): string {
    if s != [] && IsSpace(s[0]) then TrimLeft(s[1..]) else s
  }

  function TrimRight(s: string): string {
    if s != [] && IsSpace(s[|s| - 1]) then TrimRight(s[..|s| - 1]) else s
  }

  function Trim(s: string): string { TrimRight(TrimLeft(s)) }

  lemma {:induction false} TrimRightShape(s: string)
    ensures TrimRight(s) <= s
    ensures TrimRight(s) != [] ==> !IsSpace(TrimRight(s)[|TrimRight(s)| - 1])
  {
    if s != [] && IsSpace(s[|s| - 1]) { TrimRightShape(s[..|s| - 1]); }
  }

  lemma {:induction false} TrimLeftShape(s: string)
    ensures TrimLeft(s) != [] ==> !IsSpace(TrimLeft(s)[0])
  {
    if s != [] && IsSpace(s[0]) { TrimLeftShape(s[1..]); }
  }

  lemma TrimIdempotent(s: string)
    ensures Trim(Trim(s)) == Trim(s)
  {
    TrimLeftShape(s);
    TrimRightShape(TrimLeft(s));
    assert TrimLeft(Trim(s)) == Trim(s);
  }

  predicate AllSpace(s: string) { forall i | 0 <= i < |s| :: IsSpace(s[i]) }

  lemma {:induction false} TrimLeftSplits(s: string) returns (a: string)
    ensures s == a + TrimLeft(s) && AllSpace(a)
  {
    if s != [] && IsSpace(s[0]) {
      a := TrimLeftSplits(s[1..]);
      a := [s[0]] + a;
    } else {
      a := [];
    }
  }

  lemma {:induction false} TrimRightSplits(s: string) returns (b: string)
    ensures s == TrimRight(s) + b && AllSpace(b)
  {
    if s != [] && IsSpace(s[|s| - 1]) {
      b := TrimRightSplits(s[..|s| - 1]);
      b := b + [s[|s| - 1]];
    } else {
      b := [];
    }
  }

  /** Trimming takes white space off both ends, all of it, and nothing else. */
  lemma TrimIs(s: string) returns (a: string, b: string)
    ensures s == a + Trim(s) + b && AllSpace(a) && AllSpace(b)
    ensures Trim(s) != [] ==> !IsSpace(Trim(s)[0]) && !IsSpace(Trim(s)[|Trim(s)| - 1])
  {
    a := TrimLeftSplits(s);
    b := TrimRightSplits(TrimLeft(s));
    TrimLeftShape(s);
    TrimRightShape(TrimLeft(s));
  }

  // ---------- sorted, duplicate-free lists ----------

  function Elems(s: seq<string>): (r: set<string>) { set x | x in s }

  predicate Distinct(s: seq<string>) {
    forall i, j | 0 <= i < j < |s| :: s[i] != s[j]
  }

  predicate Sorted(s: seq<string>) {
    forall i, j | 0 <= i < j < |s| :: Less(s[i], s[j])
  }

  function Insert(x: string, s: seq<string>): seq<string> {
    if s == [] || Less(x, s[0]) then [x] + s else [s[0]] + Insert(x, s[1..])
  }

  function Sort(s: seq<string>): seq<string> {
    if s == [] then [] else Insert(s[0], Sort(s[1..]))
  }

  lemma {:induction false} InsertKeeps(x: string, s: seq<string>)
    requires Sorted(s) && x !in s
    ensures Sorted(Insert(x, s)) && |Insert(x, s)| == |s| + 1
    ensures Elems(Insert(x, s)) == Elems(s) + {x}
  {
    if s == [] {
    } else if Less(x, s[0]) {
      forall j | 0 < j < |s| ensures Less(x, s[j]) { LessTransitive(x, s[0], s[j]); }
    } else {
      LessTotal(x, s[0]);
      InsertKeeps(x, s[1..]);
      var t := Insert(x, s[1..]);
      assert s == [s[0]] + s[1..];
      forall j | 0 <= j < |t| ensures Less(s[0], t[j]) {
        assert t[j] in Elems(t);
      }
    }
  }

  lemma {:induction false} SortCorrect(s: seq<string>)
    requires Distinct(s)
    ensures Sorted(Sort(s)) && |Sort(s)| == |s| && Elems(Sort(s)) == Elems(s)
  {
    if s != [] {
      SortCorrect(s[1..]);
      assert s[0] !in s[1..];
      assert s[0] !in Elems(Sort(s[1..]));
      InsertKeeps(s[0], Sort(s[1..]));
      assert s == [s[0]] + s[1..];
    }
  }

  lemma {:induction false} SortedUnique(a: seq<string>, b: seq<string>)
    requires Sorted(a) && Sorted(b) && Elems(a) == Elems(b)
    ensures a == b
  {
    assert a == [] || a[0] in Elems(a);
    assert b == [] || b[0] in Elems(b);
    if a != [] {
      LessTotal(a[0], b[0]);
      assert a == [a[0]] + a[1..] && b == [b[0]] + b[1..];
      forall x | x in a[1..] ensures x in b[1..] { LessTotal(x, x); assert x in Elems(b); }
      forall x | x in b[1..] ensures x in a[1..] { LessTotal(x, x); assert x in Elems(a); }
      SortedUnique(a[1..], b[1..]);
    }
  }

  lemma {:induction false} SortedCardinality(s: seq<string>)
    requires Sorted(s)
    ensures |Elems(s)| == |s| && Distinct(s)
  {
    forall i, j | 0 <= i < j < |s| ensures s[i] != s[j] { LessTotal(s[i], s[j]); }
    if s != [] {
      SortedCardinality(s[1..]);
      assert Elems(s) == Elems(s[1..]) + {s[0]};
      assert s[0] !in Elems(s[1..]);
    }
  }

  // ---------- what is stored ----------

  /** The canonical form of a committed topology. */
  predicate Canonical(t: Topology, allowed: Whitelist) {
    && t.replicas >= 3 && t.replicas % 2 == 1 && |t.members| == t.replicas
    && Sorted(t.members)
    && (forall m | m in t.members :: m in allowed && Trim(m) == m)
  }

  /** Exactly the raw input that normalizeClusterTopology accepts. */
  predicate Acceptable(t: Topology, allowed: Whitelist) {
    && t.replicas >= 3 && t.replicas % 2 == 1 && |t.members| == t.replicas
    && (forall i | 0 <= i < |t.members| :: Trim(t.members[i]) in allowed)
    && (forall i, j | 0 <= i < j < |t.members| :: Trim(t.members[i]) != Trim(t.members[j]))
  }

  /** Each topology change adds or removes exactly two members. */
  predicate Adjacent(a: Topology, b: Topology) {
    || (|b.members| == |a.members| + 2 && Elems(a.members) <= Elems(b.members))
    || (|b.members| + 2 == |a.members| && Elems(b.members) <= Elems(a.members))
  }

  /** normalizeClusterTopology: accepts exactly the acceptable inputs and
      returns the one canonical topology with the same trimmed names. */
  method NormalizeClusterTopology(t: Topology, allowed: Whitelist) returns (r: Option<Topology>)
    ensures r.Some? <==> Acceptable(t, allowed)
    ensures r.Some? <==>
              && t.replicas >= 3 && t.replicas % 2 == 1 && |t.members| == t.replicas
              && (forall i | 0 <= i < |t.members| :: Trim(t.members[i]) in allowed)
              && (forall i, j | 0 <= i < j < |t.members| :: Trim(t.members[i]) != Trim(t.members[j]))
    ensures r.Some? ==> Canonical(r.value, allowed) && r.value.replicas == t.replicas
    ensures r.Some? ==> forall i, j | 0 <= i < j < |r.value.members| :: Less(r.value.members[i], r.value.members[j])
    ensures r.Some? ==> Elems(r.value.members) == set m | m in t.members :: Trim(m)
  {
    if t.replicas < 3 || t.replicas % 2 == 0 { return None; }
    if |t.members| != t.replicas { return None; }
    var seen: set<string> := {};
    var names: seq<string> := [];
    for i := 0 to |t.members|
      invariant |names| == i && Distinct(names) && seen == Elems(names)
      invariant forall k | 0 <= k < i :: names[k] == Trim(t.members[k])
      invariant forall k | 0 <= k < i :: names[k] in allowed
    {
      var name := Trim(t.members[i]);
      if name !in allowed { return None; }
      if name in seen {
        var k :| 0 <= k < i && names[k] == name;
        return None;
      }
      seen := seen + {name};
      names := names + [name];
    }
    SortCorrect(names);
    r := Some(Topology(t.replicas, Sort(names)));
    forall m | m in r.value.members ensures m in allowed && Trim(m) == m {
      assert m in Elems(names);
      var k :| 0 <= k < |names| && names[k] == m;
      TrimIdempotent(t.members[k]);
    }
    forall i, j | 0 <= i < j < |t.members| ensures Trim(t.members[i]) != Trim(t.members[j]) {
      assert names[i] != names[j];
    }
  }

  /** A stored topology is read back unchanged. */
  lemma CanonicalFixpoint(t: Topology, r: Topology, allowed: Whitelist)
    requires Canonical(t, allowed) && Canonical(r, allowed) && r.replicas == t.replicas
    requires Elems(r.members) == set m | m in t.members :: Trim(m)
    ensures r == t
  {
    assert (set m | m in t.members :: Trim(m)) == Elems(t.members);
    SortedUnique(t.members, r.members);
  }

  lemma CanonicalIsAcceptable(t: Topology, allowed: Whitelist)
    requires Canonical(t, allowed)
    ensures Acceptable(t, allowed)
  {
    SortedCardinality(t.members);
  }

  /** isStringSubset over slices. */
  method IsStringSubset(subset: seq<string>, superset: seq<string>) returns (r: bool)
    ensures r <==> Elems(subset) <= Elems(superset)
  {
    var known := Elems(superset);
    for i := 0 to |subset|
      invariant forall k | 0 <= k < i :: subset[k] in known
    {
      if subset[i] !in known {
        assert subset[i] in Elems(subset);
        return false;
      }
    }
    return true;
  }

  /** The members kept by an admissible change are a majority of the topology
      before it and of the one after it. */
  lemma RetainedMajority(a: Topology, b: Topology, allowed: Whitelist)
    requires Canonical(a, allowed) && Canonical(b, allowed) && Adjacent(a, b)
    ensures 2 * |Elems(a.members) * Elems(b.members)| > |Elems(a.members)|
    ensures 2 * |Elems(a.members) * Elems(b.members)| > |Elems(b.members)|
  {
    SortedCardinality(a.members);
    SortedCardinality(b.members);
    if Elems(a.members) <= Elems(b.members) {
      assert Elems(a.members) * Elems(b.members) == Elems(a.members);
    } else {
      assert Elems(a.members) * Elems(b.members) == Elems(b.members);
    }
  }

  /** Only retained members give the overlap: after growing a topology, the
      nodes outside any smallest old majority are already a majority of the new
      one, so an old and a new majority need not share a node. */
  lemma OldMajorityMayBeMissed(a: Topology, b: Topology, allowed: Whitelist, quorum: set<string>)
    requires Canonical(a, allowed) && Canonical(b, allowed) && Adjacent(a, b)
    requires |b.members| > |a.members|
    requires quorum <= Elems(a.members) && |quorum| == |a.members| / 2 + 1
    ensures 2 * |Elems(b.members) - quorum| > |Elems(b.members)|
    ensures (Elems(b.members) - quorum) * quorum == {}
  {
    SortedCardinality(b.members);
    assert |Elems(b.members) - quorum| + |quorum| == |Elems(b.members)| by {
      assert Elems(b.members) == (Elems(b.members) - quorum) + quorum;
    }
  }
}
