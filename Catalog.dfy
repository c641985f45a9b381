/**
  The catalog of a release: the assets whose `state` is `"uploaded"`, keyed by
  name, as the dictionary comprehension of `get_release_assets` builds it. A
  later asset with the same name overwrites the earlier value but keeps the
  earlier position.
 */
module Catalog {
  import opened Wrappers
  import opened Dicts

  /** One asset record of a release listing. */
  datatype Asset = Asset(name: Option<string>, url: string, size: Option<int>, state: string)

  type Catalog = Dict<string, Asset>

  predicate UploadedAs(a: Asset, n: string) {
    a.state == "uploaded" && a.name == Some(n)
  }

  /** The comprehension `{a["name"]: a for a in assets if a["state"] == "uploaded"}`,
      one insertion per asset in list order. */
  function CatalogOf(assets: seq<Asset>): (c: Catalog)
    decreases |assets|
  {
    if assets == [] then []
    else
      var c := CatalogOf(assets[..|assets| - 1]);
      var a := assets[|assets| - 1];
      if a.state == "uploaded" && a.name.Some? then Put(c, a.name.value, a) else c
  }

  /** Every catalog value is an uploaded asset carrying its key as its name. */
  lemma {:induction false} CatalogHoldsUploaded(assets: seq<Asset>)
    ensures forall i :: 0 <= i < |CatalogOf(assets)| ==> UploadedAs(CatalogOf(assets)[i].1, CatalogOf(assets)[i].0)
    decreases |assets|
  {
    if assets != [] {
      CatalogHoldsUploaded(assets[..|assets| - 1]);
    }
  }

  /** One step of the comprehension, seen through a lookup of `n`. */
  lemma CatalogStep(assets: seq<Asset>, n: string)
    requires assets != []
    ensures Get(CatalogOf(assets), n) ==
      if UploadedAs(assets[|assets| - 1], n) then Some(assets[|assets| - 1])
      else Get(CatalogOf(assets[..|assets| - 1]), n)
  {
    var a := assets[|assets| - 1];
    if a.state == "uploaded" && a.name.Some? {
      if a.name.value == n {
        PutSpec(CatalogOf(assets[..|assets| - 1]), n, a);
      } else {
        PutOther(CatalogOf(assets[..|assets| - 1]), a.name.value, a, n);
      }
    }
  }

  /** A name is a key of the catalog exactly when some uploaded asset carries it. */
  lemma {:induction false} CatalogKeys(assets: seq<Asset>, n: string)
    ensures Get(CatalogOf(assets), n).None? <==> forall i :: 0 <= i < |assets| ==> !UploadedAs(assets[i], n)
    decreases |assets|
  {
    if assets != [] {
      var init := assets[..|assets| - 1];
      CatalogKeys(init, n);
      CatalogStep(assets, n);
      if !UploadedAs(assets[|assets| - 1], n) {
        assert Get(CatalogOf(assets), n) == Get(CatalogOf(init), n);
        assert (forall i :: 0 <= i < |assets| ==> !UploadedAs(assets[i], n)) <==>
               (forall i :: 0 <= i < |init| ==> !UploadedAs(init[i], n)) by {
          assert forall i :: 0 <= i < |init| ==> assets[i] == init[i];
        }
      }
    }
  }

  /** The value under a name is the LAST uploaded asset carrying it. */
  lemma {:induction false} CatalogKeepsLast(assets: seq<Asset>, n: string) returns (i: nat)
    requires Get(CatalogOf(assets), n).Some?
    ensures i < |assets| && assets[i] == Get(CatalogOf(assets), n).value && UploadedAs(assets[i], n)
    ensures forall j :: i < j < |assets| ==> !UploadedAs(assets[j], n)
    decreases |assets|
  {
    var init := assets[..|assets| - 1];
    CatalogStep(assets, n);
    if UploadedAs(assets[|assets| - 1], n) {
      i := |assets| - 1;
    } else {
      assert Get(CatalogOf(init), n) == Get(CatalogOf(assets), n);
      i := CatalogKeepsLast(init, n);
      assert assets[i] == init[i];
      forall j | i < j < |assets| ensures !UploadedAs(assets[j], n) {
        if j < |init| {
          assert assets[j] == init[j];
        }
      }
    }
  }

  /** Catalog order is the order of first upload: the name at an earlier
      position was uploaded (at index `i`) before the name at a later position
      was uploaded at all. */
  lemma {:induction false} CatalogFirstUploadOrder(assets: seq<Asset>, p: nat, q: nat) returns (i: nat)
    requires p < q < |CatalogOf(assets)|
    ensures i < |assets| && UploadedAs(assets[i], CatalogOf(assets)[p].0)
    ensures forall j :: 0 <= j <= i ==> !UploadedAs(assets[j], CatalogOf(assets)[q].0)
    decreases |assets|
  {
    var init := assets[..|assets| - 1];
    var c := CatalogOf(init);
    var a := assets[|assets| - 1];
    assert forall j :: 0 <= j < |init| ==> assets[j] == init[j];
    if a.state == "uploaded" && a.name.Some? {
      PutSpec(c, a.name.value, a);
      if a.name.value in KeysOf(c) || q < |c| {
        assert CatalogOf(assets)[p].0 == c[p].0 && CatalogOf(assets)[q].0 == c[q].0 by {
          assert KeysOf(CatalogOf(assets))[p] == KeysOf(c)[p];
          assert KeysOf(CatalogOf(assets))[q] == KeysOf(c)[q];
        }
        i := CatalogFirstUploadOrder(init, p, q);
      } else {
        var n := a.name.value;
        assert CatalogOf(assets)[q].0 == n && CatalogOf(assets)[p].0 == c[p].0 by {
          assert KeysOf(CatalogOf(assets))[p] == KeysOf(c)[p];
          assert KeysOf(CatalogOf(assets))[q] == n;
        }
        CatalogKeys(init, c[p].0);
        assert KeysOf(c)[p] == c[p].0;
        i :| 0 <= i < |init| && UploadedAs(init[i], c[p].0);
        CatalogKeys(init, n);
      }
    } else {
      i := CatalogFirstUploadOrder(init, p, q);
    }
  }
}
