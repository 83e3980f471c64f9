/** A map keyed by strings that stand one-to-one for richer keys. */
module KeyedMaps {

  ghost predicate Injective<K(!new)>(key: K -> string) {
    forall a, b :: key(a) == key(b) ==> a == b
  }

  /** s holds exactly the entries of m, each under the string of its key. */
  ghost predicate Represents<K, V>(s: map<string, V>, m: map<K, V>, key: K -> string) {
    && (forall k :: k in m ==> key(k) in s && s[key(k)] == m[k])
    && (forall t :: t in s ==> exists k :: k in m && key(k) == t)
  }

  lemma Lookup<K(!new), V>(s: map<string, V>, m: map<K, V>, key: K -> string, k: K)
    requires Injective(key) && Represents(s, m, key)
    ensures key(k) in s <==> k in m
    ensures k in m ==> s[key(k)] == m[k]
  {
  }

  lemma Update<K(!new), V>(s: map<string, V>, m: map<K, V>, key: K -> string, k: K, v: V)
    requires Injective(key) && Represents(s, m, key)
    ensures Represents(s[key(k) := v], m[k := v], key)
  {
    var s', m' := s[key(k) := v], m[k := v];
    forall t | t in s' ensures exists j :: j in m' && key(j) == t {
      if t == key(k) {
        assert k in m';
      } else {
        var j :| j in m && key(j) == t;
        assert j in m';
      }
    }
  }

  lemma Remove<K(!new), V>(s: map<string, V>, m: map<K, V>, key: K -> string, k: K)
    requires Injective(key) && Represents(s, m, key)
    ensures Represents(s - {key(k)}, m - {k}, key)
  {
    var s', m' := s - {key(k)}, m - {k};
    forall t | t in s' ensures exists j :: j in m' && key(j) == t {
      var j :| j in m && key(j) == t;
      assert j in m';
    }
  }
}
