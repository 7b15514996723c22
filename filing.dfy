/**
 * Filing values into a dictionary in list order, the two ways the builders do
 * it: the last value with a key wins, or the first value with a key wins. Keys
 * and values are given as sequences, so these facts hold whatever computes them.
 */
module Filing {
  import opened Wrappers

  // ---------------------------------------------------------------------------
  // Last value wins
  // ---------------------------------------------------------------------------

  /**
   * File `vs[i]` under `keys[i]` for each `i` in order, a later value replacing an
   * earlier one with the same key; `Err(f)` when `keys[f]` is the first missing key.
   */
  function FileLastWins<V>(vs: seq<V>, keys: seq<Option<string>>): (r: Result<map<string, V>, nat>)
    requires |keys| == |vs|
    ensures r.Err? ==> r.error < |vs|
    ensures r.Ok? ==> |r.value| <= |vs|
    decreases |vs|
  {
    if vs == [] then Ok(map[])
    else
      var n := |vs| - 1;
      match FileLastWins(vs[..n], keys[..n])
      case Err(f) => Err(f)
      case Ok(m) =>
        match keys[n]
        case None => Err(n)
        case Some(k) => Ok(m[k := vs[n]])
  }

  /** No later entry has the key of entry `i`. */
  predicate IsLastKey<K(==)>(keys: seq<K>, i: int) {
    0 <= i < |keys| && keys[i] !in keys[i + 1..]
  }

  /** Once a prefix fails, the whole list fails with the same missing key. */
  lemma {:induction false} LastWinsErrorSticks<V>(vs: seq<V>, keys: seq<Option<string>>, n: nat)
    requires |keys| == |vs| && n <= |vs| && FileLastWins(vs[..n], keys[..n]).Err?
    ensures FileLastWins(vs, keys) == FileLastWins(vs[..n], keys[..n])
    decreases |vs| - n
  {
    if n < |vs| {
      assert vs[..n + 1][..n] == vs[..n];
      assert keys[..n + 1][..n] == keys[..n];
      LastWinsErrorSticks(vs, keys, n + 1);
    } else {
      assert vs[..n] == vs && keys[..n] == keys;
    }
  }

  /** Filing fails exactly when a key is missing, and it reports the first missing one. */
  lemma {:induction false} LastWinsFails<V>(vs: seq<V>, keys: seq<Option<string>>)
    requires |keys| == |vs|
    ensures FileLastWins(vs, keys).Err? <==> None in keys
    ensures FileLastWins(vs, keys).Err? ==>
      var f := FileLastWins(vs, keys).error;
      keys[f] == None && None !in keys[..f]
    decreases |vs|
  {
    if vs != [] {
      var n := |vs| - 1;
      LastWinsFails(vs[..n], keys[..n]);
      assert keys == keys[..n] + [keys[n]];
      if FileLastWins(vs[..n], keys[..n]).Err? {
        var f := FileLastWins(vs[..n], keys[..n]).error;
        assert keys[..n][..f] == keys[..f];
      }
    }
  }

  /** A successful filing holds every key. */
  lemma {:induction false} LastWinsHasKeys<V>(vs: seq<V>, keys: seq<Option<string>>)
    requires |keys| == |vs| && FileLastWins(vs, keys).Ok?
    ensures forall i :: 0 <= i < |vs| ==> keys[i].Some? && keys[i].value in FileLastWins(vs, keys).value
    decreases |vs|
  {
    if vs != [] {
      var n := |vs| - 1;
      LastWinsHasKeys(vs[..n], keys[..n]);
      assert forall i :: 0 <= i < n ==> keys[..n][i] == keys[i];
    }
  }

  /** Every entry of a successful filing is one of the values, under that value's own key. */
  lemma {:induction false} LastWinsValues<V>(vs: seq<V>, keys: seq<Option<string>>)
    requires |keys| == |vs| && FileLastWins(vs, keys).Ok?
    ensures var m := FileLastWins(vs, keys).value;
      forall k :: k in m ==> exists i :: 0 <= i < |vs| && keys[i] == Some(k) && m[k] == vs[i]
    decreases |vs|
  {
    if vs != [] {
      var n := |vs| - 1;
      var pv, pk := vs[..n], keys[..n];
      LastWinsValues(pv, pk);
      var mp := FileLastWins(pv, pk).value;
      var m := FileLastWins(vs, keys).value;
      assert m == mp[keys[n].value := vs[n]];
      forall k | k in m ensures exists i :: 0 <= i < |vs| && keys[i] == Some(k) && m[k] == vs[i] {
        if k != keys[n].value {
          var i :| 0 <= i < n && pk[i] == Some(k) && mp[k] == pv[i];
          assert keys[i] == Some(k) && m[k] == vs[i];
        }
      }
    }
  }

  /** The value filed under a key is the last one with that key. */
  lemma {:induction false} LastWinsLast<V>(vs: seq<V>, keys: seq<Option<string>>)
    requires |keys| == |vs| && FileLastWins(vs, keys).Ok?
    ensures var m := FileLastWins(vs, keys).value;
      forall i :: IsLastKey(keys, i) ==> keys[i].Some? && keys[i].value in m && m[keys[i].value] == vs[i]
    decreases |vs|
  {
    if vs != [] {
      var n := |vs| - 1;
      var pv, pk := vs[..n], keys[..n];
      LastWinsLast(pv, pk);
      LastWinsHasKeys(vs, keys);
      var mp := FileLastWins(pv, pk).value;
      var m := FileLastWins(vs, keys).value;
      assert m == mp[keys[n].value := vs[n]];
      forall i | IsLastKey(keys, i) ensures keys[i].Some? && keys[i].value in m && m[keys[i].value] == vs[i] {
        if i < n {
          assert keys[n] in keys[i + 1..];
          assert pk[i + 1..] == keys[i + 1..n];
          assert IsLastKey(pk, i);
        }
      }
    }
  }

  // ---------------------------------------------------------------------------
  // First value wins
  // ---------------------------------------------------------------------------

  /**
   * File entry `i` under `keys[i]` for each `i` in order, skipping an entry whose
   * key is already filed; an entry that is filed stores `stored[i]`, and the
   * first such that is an error is the result.
   */
  function FileFirstWins<V, E>(keys: seq<string>, stored: seq<Result<V, E>>): (r: Result<map<string, V>, E>)
    requires |stored| == |keys|
    ensures r.Ok? ==> |r.value| <= |keys|
    decreases |keys|
  {
    if keys == [] then Ok(map[])
    else
      var n := |keys| - 1;
      match FileFirstWins(keys[..n], stored[..n])
      case Err(e) => Err(e)
      case Ok(m) =>
        if keys[n] in m then Ok(m)
        else
          match stored[n]
          case Err(e) => Err(e)
          case Ok(v) => Ok(m[keys[n] := v])
  }

  /** No earlier entry has the key of entry `i`. */
  predicate IsFirstKey<K(==)>(keys: seq<K>, i: int) {
    0 <= i < |keys| && keys[i] !in keys[..i]
  }

  /** `f` is the first entry that is filed and whose stored value is an error. */
  predicate IsFirstError<V, E>(keys: seq<string>, stored: seq<Result<V, E>>, f: int)
    requires |stored| == |keys|
  {
    IsFirstKey(keys, f) && stored[f].Err? &&
    forall j :: 0 <= j < f && IsFirstKey(keys, j) ==> stored[j].Ok?
  }

  /** The keys filed are exactly the keys of the entries. */
  lemma {:induction false} FirstWinsKeys<V, E>(keys: seq<string>, stored: seq<Result<V, E>>)
    requires |stored| == |keys| && FileFirstWins(keys, stored).Ok?
    ensures forall k :: k in FileFirstWins(keys, stored).value <==> k in keys
    decreases |keys|
  {
    if keys != [] {
      var n := |keys| - 1;
      FirstWinsKeys(keys[..n], stored[..n]);
      assert keys == keys[..n] + [keys[n]];
    }
  }

  /** Once a prefix fails, the whole list fails with the same error. */
  lemma {:induction false} FirstWinsErrorSticks<V, E>(keys: seq<string>, stored: seq<Result<V, E>>, n: nat)
    requires |stored| == |keys| && n <= |keys| && FileFirstWins(keys[..n], stored[..n]).Err?
    ensures FileFirstWins(keys, stored) == FileFirstWins(keys[..n], stored[..n])
    decreases |keys| - n
  {
    if n < |keys| {
      assert keys[..n + 1][..n] == keys[..n];
      assert stored[..n + 1][..n] == stored[..n];
      FirstWinsErrorSticks(keys, stored, n + 1);
    } else {
      assert keys[..n] == keys && stored[..n] == stored;
    }
  }

  /** The last entry is filed exactly when its key is new. */
  lemma LastEntryIsFirst<V, E>(keys: seq<string>, stored: seq<Result<V, E>>)
    requires |stored| == |keys| && keys != []
    requires FileFirstWins(keys[..|keys| - 1], stored[..|keys| - 1]).Ok?
    ensures IsFirstKey(keys, |keys| - 1) <==>
      keys[|keys| - 1] !in FileFirstWins(keys[..|keys| - 1], stored[..|keys| - 1]).value
  {
    FirstWinsKeys(keys[..|keys| - 1], stored[..|keys| - 1]);
  }

  /**
   * Filing fails exactly when some entry that would be filed stores an error,
   * and it reports the first of them; entries with a repeated key are never
   * looked at.
   */
  lemma {:induction false} FirstWinsFails<V, E>(keys: seq<string>, stored: seq<Result<V, E>>)
    requires |stored| == |keys|
    ensures FileFirstWins(keys, stored).Err? <==> exists i :: IsFirstKey(keys, i) && stored[i].Err?
    ensures FileFirstWins(keys, stored).Err? ==>
      exists f :: IsFirstError(keys, stored, f) && FileFirstWins(keys, stored).error == stored[f].error
    decreases |keys|
  {
    if keys != [] {
      var n := |keys| - 1;
      var pk, ps := keys[..n], stored[..n];
      FirstWinsFails(pk, ps);
      assert forall i :: 0 <= i < n ==> pk[..i] == keys[..i];
      assert forall i :: 0 <= i < n ==> (IsFirstKey(pk, i) <==> IsFirstKey(keys, i));
      if FileFirstWins(pk, ps).Err? {
        var f :| IsFirstError(pk, ps, f) && FileFirstWins(pk, ps).error == ps[f].error;
        assert IsFirstError(keys, stored, f);
      } else {
        LastEntryIsFirst(keys, stored);
        if FileFirstWins(keys, stored).Err? {
          assert IsFirstError(keys, stored, n);
        } else if IsFirstKey(keys, n) {
          assert stored[n].Ok?;
        }
      }
    }
  }

  /** A successful filing stores, under each key, the value of the first entry with that key. */
  lemma {:induction false} FirstWinsContents<V, E>(keys: seq<string>, stored: seq<Result<V, E>>)
    requires |stored| == |keys| && FileFirstWins(keys, stored).Ok?
    ensures var m := FileFirstWins(keys, stored).value;
      forall i :: IsFirstKey(keys, i) ==> keys[i] in m && Ok(m[keys[i]]) == stored[i]
    decreases |keys|
  {
    if keys != [] {
      var n := |keys| - 1;
      var pk, ps := keys[..n], stored[..n];
      FirstWinsContents(pk, ps);
      LastEntryIsFirst(keys, stored);
      var m := FileFirstWins(keys, stored).value;
      forall i | IsFirstKey(keys, i) ensures keys[i] in m && Ok(m[keys[i]]) == stored[i] {
        if i < n {
          assert pk[..i] == keys[..i];
          assert IsFirstKey(pk, i);
          if IsFirstKey(keys, n) {
            assert keys[i] in keys[..n];
          }
        }
      }
    }
  }

  /** Every stored entry comes from a first occurrence of its key. */
  lemma {:induction false} FirstWinsValues<V, E>(keys: seq<string>, stored: seq<Result<V, E>>)
    requires |stored| == |keys| && FileFirstWins(keys, stored).Ok?
    ensures var m := FileFirstWins(keys, stored).value;
      forall k :: k in m ==> exists i :: IsFirstKey(keys, i) && keys[i] == k && Ok(m[k]) == stored[i]
    decreases |keys|
  {
    if keys != [] {
      var n := |keys| - 1;
      var pk, ps := keys[..n], stored[..n];
      FirstWinsValues(pk, ps);
      LastEntryIsFirst(keys, stored);
      var mp := FileFirstWins(pk, ps).value;
      var m := FileFirstWins(keys, stored).value;
      forall k | k in m ensures exists i :: IsFirstKey(keys, i) && keys[i] == k && Ok(m[k]) == stored[i] {
        if k in mp {
          var i :| IsFirstKey(pk, i) && pk[i] == k && Ok(mp[k]) == ps[i];
          assert pk[..i] == keys[..i];
          assert IsFirstKey(keys, i) && keys[i] == k;
        } else {
          assert IsFirstKey(keys, n) && keys[n] == k;
        }
      }
    }
  }

  /** Only the stored values of entries that are filed matter. */
  lemma {:induction false} FirstWinsSameFirst<V, E>(keys: seq<string>, stored: seq<Result<V, E>>, other: seq<Result<V, E>>)
    requires |stored| == |keys| == |other|
    requires forall i :: IsFirstKey(keys, i) ==> stored[i] == other[i]
    ensures FileFirstWins(keys, stored) == FileFirstWins(keys, other)
    decreases |keys|
  {
    if keys != [] {
      var n := |keys| - 1;
      forall i | IsFirstKey(keys[..n], i) ensures stored[..n][i] == other[..n][i] {
        assert keys[..n][..i] == keys[..i];
        assert IsFirstKey(keys, i);
      }
      FirstWinsSameFirst(keys[..n], stored[..n], other[..n]);
      if FileFirstWins(keys[..n], stored[..n]).Ok? {
        LastEntryIsFirst(keys, stored);
      }
    }
  }
}
