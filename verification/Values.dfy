/** Construction contracts of the runtime values that carry invariants: quantize/runtime/values.py. */
module Values {
  import opened Collections
  import opened Market
  import opened Portfolio

  /** The entries as a mapping. */
  function EntryMap(entries: seq<(Asset, real)>): (m: map<Asset, real>)
    ensures forall a :: a in m <==> exists i :: 0 <= i < |entries| && entries[i].0 == a
  {
    if entries == [] then map[]
    else EntryMap(entries[..|entries| - 1])[entries[|entries| - 1].0 := entries[|entries| - 1].1]
  }

  lemma EntrySnoc(entries: seq<(Asset, real)>, k: nat)
    requires k < |entries|
    ensures EntryMap(entries[..k + 1]) == EntryMap(entries[..k])[entries[k].0 := entries[k].1]
    ensures UniqueAssets(entries[..k + 1]) <==> UniqueAssets(entries[..k]) && entries[k].0 !in EntryMap(entries[..k])
  {
    var longer, shorter := entries[..k + 1], entries[..k];
    assert longer[..k] == shorter && longer[k] == entries[k];
    if UniqueAssets(shorter) && entries[k].0 !in EntryMap(shorter) {
      forall i, j | 0 <= i < j < |longer| ensures longer[i].0 != longer[j].0 {
        assert longer[i] == shorter[i];
        if j < k { assert longer[j] == shorter[j]; }
      }
    }
    if UniqueAssets(longer) {
      assert forall i :: 0 <= i < k ==> shorter[i] == longer[i];
      assert forall i :: 0 <= i < k ==> shorter[i].0 != entries[k].0;
    }
  }

  lemma UniquePrefix(entries: seq<(Asset, real)>, k: nat)
    requires k <= |entries| && UniqueAssets(entries)
    ensures UniqueAssets(entries[..k])
  {
    var shorter := entries[..k];
    assert forall i :: 0 <= i < k ==> shorter[i] == entries[i];
  }

  /** Distinct entries are all in the mapping. */
  lemma {:induction false} EntriesKept(entries: seq<(Asset, real)>)
    requires UniqueAssets(entries)
    ensures forall i :: 0 <= i < |entries| ==> entries[i].0 in EntryMap(entries) && EntryMap(entries)[entries[i].0] == entries[i].1
  {
    if entries != [] {
      var n := |entries| - 1;
      UniquePrefix(entries, n);
      EntriesKept(entries[..n]);
      assert forall i :: 0 <= i < n ==> entries[..n][i] == entries[i];
    }
  }

  /** Weights are accepted exactly when assets are distinct, no weight is negative, and they sum to at most one within
      tolerance; the value then carries exactly the given weights. */
  method NewTargets(entries: seq<(Asset, real)>) returns (r: Option<Weights>)
    ensures r.Some? <==> UniqueAssets(entries) && (forall i :: 0 <= i < |entries| ==> entries[i].1 >= 0.0)
                         && SumMap(EntryMap(entries)) <= 1.0 + 0.000000001
    ensures r.Some? ==> r.value == EntryMap(entries)
    ensures r.Some? ==> forall i :: 0 <= i < |entries| ==> entries[i].0 in r.value && r.value[entries[i].0] == entries[i].1
    ensures r.Some? ==> forall a :: a in r.value ==> exists i :: 0 <= i < |entries| && entries[i].0 == a
  {
    hide EntryMap, SumMap, UniqueAssets;
    var weights: map<Asset, real> := map[];
    var total := 0.0;
    NoEntries(entries);
    for k := 0 to |entries|
      invariant UniqueAssets(entries[..k]) && weights == EntryMap(entries[..k]) && total == SumMap(weights)
      invariant forall i :: 0 <= i < k ==> entries[i].1 >= 0.0
      invariant forall a :: a in weights ==> weights[a] >= 0.0
    {
      EntrySnoc(entries, k);
      var (asset, weight) := entries[k];
      if asset in weights {
        Duplicated(entries, k + 1);
        return None;
      }
      if weight < 0.0 {
        return None;
      }
      SumInsert(weights, asset, weight);
      weights := weights[asset := weight];
      total := total + weight;
    }
    assert entries[..|entries|] == entries;
    if total > 1.0 + WEIGHT_TOLERANCE {
      return None;
    }
    EntriesKept(entries);
    return Some(weights);
  }

  lemma Duplicated(entries: seq<(Asset, real)>, k: nat)
    requires k <= |entries| && !UniqueAssets(entries[..k])
    ensures !UniqueAssets(entries)
  {
    if UniqueAssets(entries) { UniquePrefix(entries, k); }
  }

  lemma NoEntries(entries: seq<(Asset, real)>)
    ensures UniqueAssets(entries[..0]) && EntryMap(entries[..0]) == map[] && SumMap(map[]) == 0.0
  {
  }

  /** Comparing each point with the previous one only: the history is accepted exactly when its dates strictly increase. */
  method CheckHistory(history: seq<Point>) returns (ok: bool)
    ensures ok <==> AscendingDates(history)
  {
    for k := 0 to |history|
      invariant AscendingDates(history[..k])
    {
      if k > 0 && !(history[k - 1].date < history[k].date) {
        return false;
      }
      assert history[..k + 1] == history[..k] + [history[k]];
      forall i | 0 <= i < k ensures history[i].date < history[k].date {
        if i < k - 1 {
          assert history[..k][i].date < history[..k][k - 1].date;
        }
      }
    }
    assert history[..|history|] == history;
    return true;
  }
}
