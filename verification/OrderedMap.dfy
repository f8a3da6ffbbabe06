/** `std::map<std::string, V>`: entries sorted by the byte order of their keys.  Iteration order
    matters to the library, so the map is the sorted sequence itself. */
module OrderedMaps {
  import opened Wrappers

  /** `std::string::operator<`: the first differing byte decides, a proper prefix is smaller. */
  predicate Less(a: string, b: string) {
    if b == "" then false
    else if a == "" then true
    else a[0] < b[0] || (a[0] == b[0] && Less(a[1..], b[1..]))
  }

  datatype Entry<V> = Entry(key: string, value: V)

  ghost predicate Sorted<V>(m: seq<Entry<V>>) {
    forall i, j :: 0 <= i < j < |m| ==> Less(m[i].key, m[j].key)
  }

  /** `m[key] = value`. */
  function Put<V>(m: seq<Entry<V>>, key: string, value: V): seq<Entry<V>> {
    if m == [] || Less(key, m[0].key) then [Entry(key, value)] + m
    else if key == m[0].key then [Entry(key, value)] + m[1..]
    else [m[0]] + Put(m[1..], key, value)
  }

  lemma {:induction false} LessIrreflexive(a: string)
    ensures !Less(a, a)
  {
    if a != "" {
      LessIrreflexive(a[1..]);
    }
  }

  lemma {:induction false} LessTransitive(a: string, b: string, c: string)
    requires Less(a, b) && Less(b, c)
    ensures Less(a, c)
  {
    if a != "" && a[0] == b[0] == c[0] {
      LessTransitive(a[1..], b[1..], c[1..]);
    }
  }

  lemma {:induction false} LessTotal(a: string, b: string)
    ensures a == b || Less(a, b) || Less(b, a)
  {
    if a != "" && b != "" && a[0] == b[0] {
      LessTotal(a[1..], b[1..]);
      assert a == [a[0]] + a[1..] && b == [b[0]] + b[1..];
    }
  }

  lemma {:induction false} LessAfterPrefix(a: string, b: string, k: nat)
    requires k <= |a| && k <= |b| && a[..k] == b[..k]
    ensures Less(a, b) <==> Less(a[k..], b[k..])
  {
    if k == 0 {
      assert a[0..] == a && b[0..] == b;
    } else {
      assert a[0] == a[..k][0] == b[..k][0] == b[0];
      assert a[1..][..k - 1] == a[..k][1..] == b[..k][1..] == b[1..][..k - 1];
      assert a[1..][k - 1..] == a[k..] && b[1..][k - 1..] == b[k..];
      LessAfterPrefix(a[1..], b[1..], k - 1);
    }
  }

  /** Byte order in other words: a proper prefix, or the first differing byte is smaller. */
  predicate FirstDiffers(a: string, b: string, k: nat) {
    k < |a| && k < |b| && a[..k] == b[..k] && a[k] < b[k]
  }

  lemma {:induction false} LessExact(a: string, b: string)
    ensures Less(a, b) <==> (a <= b && a != b) || exists k: nat :: FirstDiffers(a, b, k)
  {
    if a != "" && b != "" {
      LessExact(a[1..], b[1..]);
      assert a == [a[0]] + a[1..] && b == [b[0]] + b[1..];
      if Less(a, b) {
        if a[0] < b[0] {
          assert FirstDiffers(a, b, 0);
        } else if exists k: nat :: FirstDiffers(a[1..], b[1..], k) {
          var k: nat :| FirstDiffers(a[1..], b[1..], k);
          LaterDiffers(a, b, k);
        }
      }
      if k: nat :| FirstDiffers(a, b, k) && k > 0 {
        assert a[0] == a[..k][0] == b[..k][0] == b[0];
        LaterDiffers(a, b, k - 1);
      }
    }
  }

  lemma LaterDiffers(a: string, b: string, k: nat)
    requires a != "" && b != "" && a[0] == b[0]
    ensures FirstDiffers(a, b, k + 1) <==> FirstDiffers(a[1..], b[1..], k)
  {
    if k + 1 < |a| && k + 1 < |b| {
      assert a[..k + 1] == [a[0]] + a[1..][..k] && b[..k + 1] == [b[0]] + b[1..][..k];
    }
  }

  /** Assigning to a key keeps the order, replaces that key's entry and leaves all others. */
  lemma {:induction false} PutKeepsOrder<V>(m: seq<Entry<V>>, key: string, value: V)
    requires Sorted(m)
    ensures Sorted(Put(m, key, value))
    ensures var r := Put(m, key, value);
            && Entry(key, value) in r
            && (forall i :: 0 <= i < |r| ==> r[i] == Entry(key, value) || (r[i] in m && r[i].key != key))
            && (forall i :: 0 <= i < |m| && m[i].key != key ==> m[i] in r)
  {
    if m == [] {
    } else if Less(key, m[0].key) {
      forall i | 0 <= i < |m|
        ensures Less(key, m[i].key) && m[i].key != key
      {
        if i > 0 {
          LessTransitive(key, m[0].key, m[i].key);
        }
        LessIrreflexive(key);
      }
    } else if key == m[0].key {
      LessIrreflexive(key);
      assert m == [m[0]] + m[1..];
      assert forall i :: 0 < i < |m| ==> m[i].key != key;
    } else {
      LessTotal(key, m[0].key);
      PutKeepsOrder(m[1..], key, value);
      assert m == [m[0]] + m[1..];
      var rest := Put(m[1..], key, value);
      forall i | 0 <= i < |rest|
        ensures Less(m[0].key, rest[i].key)
      {
      }
    }
  }
}
