/**
 * The name a finished download gets in the download directory
 * (app_production.py:227-234): `title + ext`, or, when that is taken,
 * `title + "_" + n + ext` for the smallest counter `n` that is free.
 */
module StoreNaming {
  import opened Decimal

  /** The `n`-th name tried: the plain name for 0, the suffixed one from 1 on. */
  function StoredName(title: string, ext: string, n: nat): string
  {
    if n == 0 then title + ext else title + "_" + NatToString(n) + ext
  }

  /** Different counters give different names, so every name is tried once. */
  lemma StoredNamesDiffer(title: string, ext: string, a: nat, b: nat)
    requires a != b
    ensures StoredName(title, ext, a) != StoredName(title, ext, b)
  {
    var sa, sb := StoredName(title, ext, a), StoredName(title, ext, b);
    if a == 0 || b == 0 {
      assert |sa| != |sb|;
    } else if sa == sb {
      var na, nb := NatToString(a), NatToString(b);
      assert |na| == |nb|;
      assert sa[|title| + 1..|title| + 1 + |na|] == na;
      assert sb[|title| + 1..|title| + 1 + |nb|] == nb;
      NatToStringInjective(a, b);
    }
  }

  /** The first `n` names, as a set, have `n` elements. */
  lemma {:induction false} FirstNamesCount(title: string, ext: string, n: nat)
    ensures |set k | 0 <= k < n :: StoredName(title, ext, k)| == n
  {
    if n > 0 {
      var before := set k | 0 <= k < n - 1 :: StoredName(title, ext, k);
      var names := set k | 0 <= k < n :: StoredName(title, ext, k);
      FirstNamesCount(title, ext, n - 1);
      assert names == before + {StoredName(title, ext, n - 1)};
      forall k | 0 <= k < n - 1
        ensures StoredName(title, ext, k) != StoredName(title, ext, n - 1)
      {
        StoredNamesDiffer(title, ext, k, n - 1);
      }
    }
  }

  /** If the first `n` names are all taken, the directory holds at least `n` files. */
  lemma TakenNamesBound(store: set<string>, title: string, ext: string, n: nat)
    requires forall k :: 0 <= k < n ==> StoredName(title, ext, k) in store
    ensures n <= |store|
  {
    var names := set k | 0 <= k < n :: StoredName(title, ext, k);
    FirstNamesCount(title, ext, n);
    assert names <= store;
    assert store == names + (store - names);
  }

  /**
   * The collision loop: returns a free name and its counter, every smaller
   * counter's name being taken; it stops after at most `|store|` steps.
   */
  method ChooseStoredName(store: set<string>, title: string, ext: string) returns (name: string, n: nat)
    ensures name == StoredName(title, ext, n) && name !in store
    ensures forall k :: 0 <= k < n ==> StoredName(title, ext, k) in store
    ensures n <= |store|
  {
    name := title + ext;
    var counter := 1;
    while name in store
      invariant 1 <= counter && counter - 1 <= |store|
      invariant name == StoredName(title, ext, counter - 1)
      invariant forall k :: 0 <= k < counter - 1 ==> StoredName(title, ext, k) in store
      decreases |store| - (counter - 1)
    {
      TakenNamesBound(store, title, ext, counter);
      name := title + "_" + NatToString(counter) + ext;
      counter := counter + 1;
    }
    n := counter - 1;
  }
}
