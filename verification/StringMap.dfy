/** `std::map<std::string, std::string>`: a map that is iterated in the order of its keys, which
    are compared character by character. */
module StringMap {
  import opened Bits
  import opened Serialization

  type Dict = map<Text, Text>
  type Pair = (Text, Text)

  predicate LexLeq(s: Text, t: Text) {
    s == [] || (t != [] && (s[0] < t[0] || (s[0] == t[0] && LexLeq(s[1..], t[1..]))))
  }

  lemma {:induction false} LexTotal(s: Text, t: Text)
    ensures LexLeq(s, t) || LexLeq(t, s)
    ensures LexLeq(s, t) && LexLeq(t, s) ==> s == t
  {
    if s != [] && t != [] && s[0] == t[0] {
      LexTotal(s[1..], t[1..]);
      assert s == [s[0]] + s[1..] && t == [t[0]] + t[1..];
    }
  }

  lemma {:induction false} LexTransitive(s: Text, t: Text, u: Text)
    requires LexLeq(s, t) && LexLeq(t, u)
    ensures LexLeq(s, u)
  {
    if s != [] && s[0] == t[0] && t[0] == u[0] {
      LexTransitive(s[1..], t[1..], u[1..]);
    }
  }

  /** Lexicographic: the one is the beginning of the other, or comes first where they first differ. */
  lemma {:induction false} LexMeaning(s: Text, t: Text)
    ensures LexLeq(s, t) <==> s <= t || exists k :: DiffersAt(s, t, k) && s[k] < t[k]
  {
    if s != [] && t != [] {
      forall k: int | 0 < k && DiffersAt(s, t, k) ensures s[0] == t[0] {
        assert s[..k][0] == t[..k][0];
      }
      if s[0] == t[0] {
        LexMeaning(s[1..], t[1..]);
        assert s <= t <==> s[1..] <= t[1..];
        forall k: int ensures 0 < k && DiffersAt(s, t, k) <==> DiffersAt(s[1..], t[1..], k - 1) {
          if DiffersAt(s[1..], t[1..], k - 1) {
            assert s[..k] == [s[0]] + s[1..][..k - 1] && t[..k] == [t[0]] + t[1..][..k - 1];
          }
          if 0 < k && DiffersAt(s, t, k) {
            assert s[1..][..k - 1] == s[..k][1..] && t[1..][..k - 1] == t[..k][1..];
          }
        }
        if k :| DiffersAt(s[1..], t[1..], k) && s[1..][k] < t[1..][k] {
          assert DiffersAt(s, t, k + 1) && s[k + 1] < t[k + 1];
        }
        if k :| DiffersAt(s, t, k) && s[k] < t[k] {
          assert DiffersAt(s[1..], t[1..], k - 1) && s[1..][k - 1] < t[1..][k - 1];
        }
      } else {
        assert DiffersAt(s, t, 0);
      }
    }
  }

  predicate DiffersAt(s: Text, t: Text, k: int) {
    0 <= k < |s| && k < |t| && s[k] != t[k] && s[..k] == t[..k]
  }

  ghost predicate IsLeast(key: Text, keys: set<Text>) {
    key in keys && forall k :: k in keys ==> LexLeq(key, k)
  }

  lemma LeastExists(keys: set<Text>)
    requires keys != {}
    ensures exists key :: IsLeast(key, keys)
    decreases |keys|
  {
    var key :| key in keys;
    var others := keys - {key};
    if others == {} {
      LexTotal(key, key);
      assert keys == {key};
      assert IsLeast(key, keys);
    } else {
      LeastExists(others);
      var least :| IsLeast(least, others);
      LexTotal(key, least);
      LexTotal(key, key);
      if LexLeq(key, least) {
        forall k | k in keys ensures LexLeq(key, k) {
          if k != key {
            LexTransitive(key, least, k);
          }
        }
        assert IsLeast(key, keys);
      } else {
        assert forall k :: k in keys ==> k == key || k in others;
        assert IsLeast(least, keys);
      }
    }
  }

  ghost function Least(keys: set<Text>): (key: Text)
    requires keys != {}
    ensures IsLeast(key, keys)
  {
    LeastExists(keys);
    var key :| IsLeast(key, keys);
    key
  }

  lemma LeastUnique(key: Text, keys: set<Text>)
    requires IsLeast(key, keys)
    ensures key == Least(keys)
  {
    LexTotal(key, Least(keys));
  }

  /** The pairs in iteration order. */
  ghost function Items(m: Dict): (items: seq<Pair>)
    ensures |items| == |m|
    decreases |m|
  {
    if m == map[] then []
    else
      var key := Least(m.Keys);
      RemoveOne(m, key);
      [(key, m[key])] + Items(m - {key})
  }

  lemma EnumeratesCons(items: seq<Pair>, m: Dict, key: Text)
    requires key in m && Enumerates(items, m - {key})
    ensures Enumerates([(key, m[key])] + items, m)
  {
    var all := [(key, m[key])] + items;
    assert forall i :: 1 <= i < |all| ==> all[i] == items[i - 1] && all[i].0 in m - {key};
    forall k | k in m ensures exists i :: 0 <= i < |all| && all[i].0 == k {
      if k == key {
        assert all[0].0 == k;
      } else {
        assert k in m - {key};
        var i :| 0 <= i < |items| && items[i].0 == k;
        assert all[i + 1].0 == k;
      }
    }
  }

  lemma {:induction false} ItemsEnumerate(m: Dict)
    ensures Enumerates(Items(m), m)
    decreases |m|
  {
    if m != map[] {
      var key := Least(m.Keys);
      RemoveOne(m, key);
      ItemsEnumerate(m - {key});
      EnumeratesCons(Items(m - {key}), m, key);
    }
  }

  lemma ItemsHead(m: Dict)
    requires m != map[]
    ensures var key := Least(m.Keys);
            key in m && |m - {key}| == |m| - 1 && Items(m) == [(key, m[key])] + Items(m - {key})
  {
    RemoveOne(m, Least(m.Keys));
  }

  /** Iteration follows the order of the keys. */
  lemma {:induction false} ItemsOrdered(m: Dict, i: nat, j: nat)
    requires i <= j < |Items(m)|
    ensures LexLeq(Items(m)[i].0, Items(m)[j].0)
    decreases |m|
  {
    hide Items, Enumerates;
    ItemsHead(m);
    var key := Least(m.Keys);
    var less := m - {key};
    if i > 0 {
      ItemsOrdered(less, i - 1, j - 1);
    } else if j == 0 {
      LexTotal(key, key);
    } else {
      ItemsEnumerate(less);
      EnumeratedKey(Items(less), less, j - 1);
    }
  }

  lemma EnumeratedKey(items: seq<Pair>, m: Dict, i: nat)
    requires Enumerates(items, m) && i < |items|
    ensures items[i].0 in m
  {
  }
}
