/** Redis sorted sets: a finite map from member to score, listed by score and then by member name.
    Scores are exact reals; member names compare by their characters, which for valid UTF-8 is the byte
    order that Redis and Go's sort.Strings use. */
module ZSets {

  type ZSet = map<string, real>

  predicate StringLe(a: string, b: string) {
    if a == "" then true
    else if b == "" then false
    else if a[0] == b[0] then StringLe(a[1..], b[1..])
    else a[0] < b[0]
  }

  lemma {:induction false} StringLeTotal(a: string, b: string)
    ensures StringLe(a, b) || StringLe(b, a)
    ensures StringLe(a, b) && StringLe(b, a) ==> a == b
  {
    if a != "" && b != "" && a[0] == b[0] {
      StringLeTotal(a[1..], b[1..]);
      if a[1..] == b[1..] {
        assert a == [a[0]] + a[1..] == b;
      }
    }
  }

  lemma {:induction false} StringLeTransitive(a: string, b: string, c: string)
    requires StringLe(a, b) && StringLe(b, c)
    ensures StringLe(a, c)
  {
    if a != "" && b != "" && c != "" && a[0] == b[0] == c[0] {
      StringLeTransitive(a[1..], b[1..], c[1..]);
    }
  }

  /** Member `a` is listed no later than member `b`. */
  predicate Ranked(z: ZSet, a: string, b: string)
    requires a in z && b in z
  {
    z[a] < z[b] || (z[a] == z[b] && StringLe(a, b))
  }

  lemma RankedIsTotalOrder(z: ZSet)
    ensures forall a, b | a in z && b in z :: Ranked(z, a, b) || Ranked(z, b, a)
    ensures forall a, b | a in z && b in z && Ranked(z, a, b) && Ranked(z, b, a) :: a == b
    ensures forall a, b, c | a in z && b in z && c in z && Ranked(z, a, b) && Ranked(z, b, c) :: Ranked(z, a, c)
  {
    forall a, b | a in z && b in z
      ensures Ranked(z, a, b) || Ranked(z, b, a)
      ensures Ranked(z, a, b) && Ranked(z, b, a) ==> a == b
    {
      StringLeTotal(a, b);
    }
    forall a, b, c | a in z && b in z && c in z && Ranked(z, a, b) && Ranked(z, b, c)
      ensures Ranked(z, a, c)
    {
      if StringLe(a, b) && StringLe(b, c) {
        StringLeTransitive(a, b, c);
      }
    }
  }

  lemma FirstOfAll(z: ZSet, a: string, m: string)
    requires a in z && m in z && forall k | k in z && k != a :: Ranked(z, m, k)
    ensures exists f :: f in z && forall k | k in z :: Ranked(z, f, k)
  {
    RankedIsTotalOrder(z);
    hide Ranked;
    if Ranked(z, a, m) {
      assert forall k | k in z :: Ranked(z, a, k);
    } else {
      assert forall k | k in z :: Ranked(z, m, k);
    }
  }

  lemma {:induction false} FirstExists(z: ZSet)
    requires z != map[]
    ensures exists m :: m in z && forall k | k in z :: Ranked(z, m, k)
    decreases |z|
  {
    hide StringLe;
    var a :| a in z;
    var rest := z - {a};
    assert rest.Keys == z.Keys - {a};
    var m := a;
    if rest == map[] {
      assert forall k | k in z :: k in rest.Keys || k == a;
    } else {
      FirstExists(rest);
      m :| m in rest && forall k | k in rest :: Ranked(rest, m, k);
      assert forall k | k in z && k != a :: k in rest && Ranked(rest, m, k);
    }
    FirstOfAll(z, a, m);
  }

  /** The member listed first. */
  function First(z: ZSet): (m: string)
    requires z != map[]
    ensures m in z && forall k | k in z :: Ranked(z, m, k)
  {
    FirstExists(z);
    RankedIsTotalOrder(z);
    var m :| m in z && forall k | k in z :: Ranked(z, m, k);
    m
  }

  /** ZRANGE 0 -1: every member in listing order. */
  function Sorted(z: ZSet): seq<string>
    decreases |z|
  {
    if z == map[] then []
    else
      var m := First(z);
      assert (z - {m}).Keys == z.Keys - {m};
      [m] + Sorted(z - {m})
  }

  /** A listing names each member once, and in rank order. */
  ghost predicate IsListing(z: ZSet, r: seq<string>) {
    && |r| == |z|
    && (forall k :: k in r <==> k in z)
    && forall i, j | 0 <= i < j < |r| :: r[i] != r[j] && Ranked(z, r[i], r[j])
  }

  lemma ListingConsMembers(z: ZSet, m: string, tail: seq<string>)
    requires m in z && IsListing(z - {m}, tail)
    ensures |[m] + tail| == |z|
    ensures forall k :: k in [m] + tail <==> k in z
  {
    hide Ranked;
    var rest := z - {m};
    assert rest.Keys == z.Keys - {m};
    assert |z.Keys| == |z| && |rest.Keys| == |rest|;
  }

  lemma ListingConsOrder(z: ZSet, m: string, tail: seq<string>, i: nat, j: nat)
    requires m in z && (forall k | k in z :: Ranked(z, m, k)) && IsListing(z - {m}, tail) && i < j <= |tail|
    ensures
      var r := [m] + tail;
      r[i] in z && r[j] in z && r[i] != r[j] && Ranked(z, r[i], r[j])
  {
    hide StringLe;
    assert tail[j - 1] in tail;
    if i > 0 {
      assert tail[i - 1] in tail && Ranked(z - {m}, tail[i - 1], tail[j - 1]);
    }
  }

  lemma ListingCons(z: ZSet, m: string, tail: seq<string>)
    requires m in z && (forall k | k in z :: Ranked(z, m, k)) && IsListing(z - {m}, tail)
    ensures IsListing(z, [m] + tail)
  {
    hide Ranked;
    ListingConsMembers(z, m, tail);
    var r := [m] + tail;
    forall i, j | 0 <= i < j < |r| ensures r[i] in z && r[j] in z && r[i] != r[j] && Ranked(z, r[i], r[j]) {
      ListingConsOrder(z, m, tail, i, j);
    }
  }

  lemma {:induction false} SortedIsListing(z: ZSet)
    ensures IsListing(z, Sorted(z))
    decreases |z|
  {
    if z != map[] {
      var m := First(z);
      assert (z - {m}).Keys == z.Keys - {m};
      SortedIsListing(z - {m});
      ListingCons(z, m, Sorted(z - {m}));
    }
  }

  lemma ListingHead(z: ZSet, r: seq<string>)
    requires IsListing(z, r) && z != map[]
    ensures r != [] && r[0] == First(z)
  {
    var m := First(z);
    assert |z.Keys| == |z|;
    var k :| 0 <= k < |r| && r[k] == m;
    assert r[0] in r;
    StringLeTotal(m, r[0]);
    assert k == 0 || Ranked(z, r[0], r[k]);
  }

  lemma ListingTailMembers(z: ZSet, r: seq<string>)
    requires IsListing(z, r) && r != []
    ensures |r[1..]| == |z - {r[0]}|
    ensures forall k :: k in r[1..] <==> k in z - {r[0]}
  {
    assert r[0] in r;
    assert (z - {r[0]}).Keys == z.Keys - {r[0]};
    var tail := r[1..];
    forall k ensures k in tail <==> k in z && k != r[0] {
      assert r == [r[0]] + tail;
      assert k in r <==> k == r[0] || k in tail;
      if k in tail {
        var i :| 0 <= i < |tail| && tail[i] == k;
        assert r[0] != r[i + 1];
      }
    }
  }

  lemma ListingTail(z: ZSet, r: seq<string>)
    requires IsListing(z, r) && r != []
    ensures IsListing(z - {r[0]}, r[1..])
  {
    ListingTailMembers(z, r);
    var rest, tail := z - {r[0]}, r[1..];
    forall i, j | 0 <= i < j < |tail|
      ensures tail[i] in rest && tail[j] in rest && tail[i] != tail[j] && Ranked(rest, tail[i], tail[j])
    {
      assert tail[i] in tail && tail[j] in tail;
      assert r[i + 1] != r[j + 1] && Ranked(z, r[i + 1], r[j + 1]);
    }
  }

  /** Order and membership determine the listing: there is no other one. */
  lemma {:induction false} ListingIsUnique(z: ZSet, r: seq<string>)
    requires IsListing(z, r)
    ensures r == Sorted(z)
    decreases |z|
  {
    if z == map[] {
      assert |z| == 0;
    } else {
      ListingHead(z, r);
      assert r[1..] == Sorted(z - {r[0]}) by {
        assert (z - {r[0]}).Keys == z.Keys - {r[0]};
        ListingTail(z, r);
        ListingIsUnique(z - {r[0]}, r[1..]);
      }
      assert r == [r[0]] + r[1..];
    }
  }

  function Within(z: ZSet, lo: real, hi: real): ZSet {
    map k | k in z && lo <= z[k] <= hi :: z[k]
  }

  function UpTo(z: ZSet, hi: real): ZSet {
    map k | k in z && z[k] <= hi :: z[k]
  }

  /** LIMIT 0 n */
  function Take(r: seq<string>, n: nat): seq<string> {
    if |r| <= n then r else r[..n]
  }

  /** The first n members: no member outside the result is listed before one inside it. */
  ghost predicate AreFirst(z: ZSet, r: seq<string>, n: nat) {
    && |r| == (if |z| <= n then |z| else n)
    && (forall k | k in r :: k in z)
    && (forall i, j | 0 <= i < j < |r| :: r[i] != r[j] && Ranked(z, r[i], r[j]))
    && (forall i, k | 0 <= i < |r| && k in z && k !in r :: Ranked(z, r[i], k))
    && (|z| <= n ==> forall k | k in z :: k in r)
  }

  lemma TakeAreFirst(z: ZSet, n: nat)
    ensures AreFirst(z, Take(Sorted(z), n), n)
  {
    hide Ranked, Sorted;
    SortedIsListing(z);
    var all := Sorted(z);
    var r := Take(all, n);
    assert forall i | 0 <= i < |r| :: r[i] == all[i] && r[i] in all;
    forall i, k | 0 <= i < |r| && k in z && k !in r ensures Ranked(z, r[i], k) {
      assert k in all;
      var j :| 0 <= j < |all| && all[j] == k;
      assert j >= |r|;
    }
  }

  /** Names alone in ascending order: a sorted set whose members all score the same. */
  function SortedNames(names: set<string>): seq<string> {
    Sorted(map k | k in names :: 0.0)
  }

  lemma SortedNamesAscend(names: set<string>)
    ensures |SortedNames(names)| == |names|
    ensures forall k :: k in SortedNames(names) <==> k in names
    ensures forall i, j | 0 <= i < j < |SortedNames(names)| ::
              SortedNames(names)[i] != SortedNames(names)[j] && StringLe(SortedNames(names)[i], SortedNames(names)[j])
  {
    var z: ZSet := map k | k in names :: 0.0;
    SortedIsListing(z);
    assert z.Keys == names;
    assert |z| == |names|;
    forall i, j | 0 <= i < j < |Sorted(z)| ensures StringLe(Sorted(z)[i], Sorted(z)[j]) {
      assert Ranked(z, Sorted(z)[i], Sorted(z)[j]);
    }
  }

  /** A key of the map, whichever. */
  ghost function SomeKey<V>(m: map<string, V>): (k: string)
    requires m != map[]
    ensures k in m
  {
    var k :| k in m;
    k
  }
}
