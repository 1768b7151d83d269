/**
 * Grouping nodes by a key, as both versions of the formatter do with
 * `clusters.setdefault(key, []).append(node)`: the groups, their keys, and the fact that
 * the groups split the node set, so that their sizes add up to the number of nodes.
 */
module Grouping {
  import opened PyStrings

  /** The members of group `k`: the nodes whose key is `k`. */
  function Group(nodes: set<string>, keyOf: map<string, string>, k: string): set<string>
    requires nodes <= keyOf.Keys
  {
    set n | n in nodes && keyOf[n] == k
  }

  /** The keys of the non-empty groups. */
  function GroupKeys(nodes: set<string>, keyOf: map<string, string>): set<string>
    requires nodes <= keyOf.Keys
  {
    set n | n in nodes :: keyOf[n]
  }

  /** The groups partition the nodes: every node lies in the group of its own key and in
      no other, only nodes lie in groups, and no group of a key is empty. */
  lemma GroupsPartition(nodes: set<string>, keyOf: map<string, string>)
    requires nodes <= keyOf.Keys
    ensures forall n :: n in nodes ==> keyOf[n] in GroupKeys(nodes, keyOf) && n in Group(nodes, keyOf, keyOf[n])
    ensures forall n, k :: n in Group(nodes, keyOf, k) ==> n in nodes && k == keyOf[n]
    ensures forall k :: k in GroupKeys(nodes, keyOf) ==> Group(nodes, keyOf, k) != {}
  {
    forall k | k in GroupKeys(nodes, keyOf) ensures Group(nodes, keyOf, k) != {} {
      var n :| n in nodes && keyOf[n] == k;
      assert n in Group(nodes, keyOf, k);
    }
  }

  /** The total size of the groups of the keys `ks`. */
  function GroupSizes(nodes: set<string>, keyOf: map<string, string>, ks: seq<string>): nat
    requires nodes <= keyOf.Keys
  {
    if ks == [] then 0
    else GroupSizes(nodes, keyOf, ks[..|ks| - 1]) + |Group(nodes, keyOf, ks[|ks| - 1])|
  }

  /** The nodes whose key is one of `ks`. */
  function Covered(nodes: set<string>, keyOf: map<string, string>, ks: seq<string>): set<string>
    requires nodes <= keyOf.Keys
  {
    set n | n in nodes && keyOf[n] in ks
  }

  lemma {:induction false} GroupSizesCovered(nodes: set<string>, keyOf: map<string, string>, ks: seq<string>)
    requires nodes <= keyOf.Keys
    requires forall i, j :: 0 <= i < j < |ks| ==> ks[i] != ks[j]
    ensures GroupSizes(nodes, keyOf, ks) == |Covered(nodes, keyOf, ks)|
  {
    if ks == [] {
      assert Covered(nodes, keyOf, ks) == {};
    } else {
      var init, k := ks[..|ks| - 1], ks[|ks| - 1];
      GroupSizesCovered(nodes, keyOf, init);
      var a, b := Covered(nodes, keyOf, init), Group(nodes, keyOf, k);
      assert k !in init;
      assert Covered(nodes, keyOf, ks) == a + b by {
        assert forall x :: x in ks <==> x in init || x == k by {
          assert ks == init + [k];
        }
      }
      assert a * b == {};
      assert |a + b| == |a| + |b|;
    }
  }

  /** The groups of all keys, in sorted order, hold every node once between them. */
  lemma GroupSizesTotal(nodes: set<string>, keyOf: map<string, string>)
    requires nodes <= keyOf.Keys
    ensures GroupSizes(nodes, keyOf, SortedSet(GroupKeys(nodes, keyOf))) == |nodes|
  {
    var ks := SortedSet(GroupKeys(nodes, keyOf));
    forall i, j | 0 <= i < j < |ks| ensures ks[i] != ks[j] {
      if ks[i] == ks[j] {
        LexLessIrreflexive(ks[i]);
      }
    }
    GroupSizesCovered(nodes, keyOf, ks);
    assert Covered(nodes, keyOf, ks) == nodes;
  }

  /** `clusters.setdefault(cls, []).append(raw)` keeps `clusters` the grouping of the
      nodes seen so far. */
  lemma GroupsAddOne(clusters: map<string, set<string>>, seen: set<string>, keyOf: map<string, string>, raw: string)
    requires seen <= keyOf.Keys && raw in keyOf
    requires clusters.Keys == GroupKeys(seen, keyOf)
    requires forall k :: k in clusters ==> clusters[k] == Group(seen, keyOf, k)
    ensures var cls := keyOf[raw];
      var r := clusters[cls := (if cls in clusters then clusters[cls] else {}) + {raw}];
      r.Keys == GroupKeys(seen + {raw}, keyOf)
      && forall k :: k in r ==> r[k] == Group(seen + {raw}, keyOf, k)
  {
    GroupAdd(seen, keyOf, raw);
    var cls := keyOf[raw];
    var r := clusters[cls := (if cls in clusters then clusters[cls] else {}) + {raw}];
    forall k | k in r ensures r[k] == Group(seen + {raw}, keyOf, k) {
      if k != cls {
        assert r[k] == clusters[k];
      } else if cls !in clusters {
        GroupEmpty(seen, keyOf, cls);
      }
    }
  }

  /** Moving one node from the unvisited to the visited ones keeps them complementary. */
  lemma MoveOne(nodes: set<string>, rest: set<string>, seen: set<string>, raw: string)
    requires raw in rest && rest <= nodes && seen == nodes - rest
    ensures rest - {raw} <= nodes && seen + {raw} == nodes - (rest - {raw})
  {
  }

  /** A key that no node has names an empty group. */
  lemma GroupEmpty(seen: set<string>, keyOf: map<string, string>, k: string)
    requires seen <= keyOf.Keys && k !in GroupKeys(seen, keyOf)
    ensures Group(seen, keyOf, k) == {}
  {
  }

  /** Adding one node to a grouped set adds it to the group of its key only. */
  lemma GroupAdd(seen: set<string>, keyOf: map<string, string>, raw: string)
    requires seen <= keyOf.Keys && raw in keyOf
    ensures GroupKeys(seen + {raw}, keyOf) == GroupKeys(seen, keyOf) + {keyOf[raw]}
    ensures forall k :: (Group(seen + {raw}, keyOf, k)
      == Group(seen, keyOf, k) + (if k == keyOf[raw] then {raw} else {}))
  {
  }

}
