/** The clone manifest: the insertion-ordered `Map` from captured URL to local path. */
module Manifests {
  import opened Wrappers

  /** One `saved.set(url, local)`. */
  datatype Entry = Entry(url: string, local: string)

  /** A JavaScript `Map<string, string>`, as its entries in insertion order. */
  type Manifest = seq<Entry>

  predicate DistinctUrls(m: Manifest) {
    forall i, j :: 0 <= i < j < |m| ==> m[i].url != m[j].url
  }

  /** `mapping.get(url)` */
  function Get(m: Manifest, url: string): (r: Option<string>)
    ensures r.Some? <==> exists i :: 0 <= i < |m| && m[i].url == url
    ensures r.Some? ==> exists i :: 0 <= i < |m| && m[i].url == url && m[i].local == r.value
  {
    if m == [] then None
    else if m[0].url == url then Some(m[0].local)
    else
      var r := Get(m[1..], url);
      assert forall i :: 0 <= i < |m| - 1 ==> m[1..][i] == m[i + 1];
      r
  }

  /** In a manifest without repeated URLs, looking up an entry's URL finds that entry's path. */
  lemma {:induction false} GetEntry(m: Manifest, i: nat)
    requires DistinctUrls(m) && i < |m|
    ensures Get(m, m[i].url) == Some(m[i].local)
  {
    if i > 0 {
      assert m[0].url != m[i].url;
      assert m[1..][i - 1] == m[i];
      GetEntry(m[1..], i - 1);
    }
  }

  /** JavaScript truthiness of a looked-up string: present and not empty. */
  predicate Truthy(o: Option<string>) {
    o.Some? && o.value != ""
  }
}
