/**
 * The query string of a request URL, as the `URLSearchParams` object sees it:
 * an ordered list of (name, value) pairs in which a name may repeat.
 */
module SearchParams {
  import opened Wrappers

  type Query = seq<(string, string)>

  /** `searchParams.has(name)`: some pair carries the name, whatever its value. */
  function Has(q: Query, name: string): (b: bool)
    ensures b <==> exists k :: 0 <= k < |q| && q[k].0 == name
  {
    if |q| == 0 then false
    else if q[0].0 == name then true
    else
      assert forall k :: 0 < k < |q| ==> q[k] == q[1..][k - 1];
      Has(q[1..], name)
  }

  /** `searchParams.get(name)`: the value of the first pair with that name, or null. */
  function Get(q: Query, name: string): (r: Option<string>)
    ensures r.None? <==> !Has(q, name)
    ensures r.Some? ==> exists k :: 0 <= k < |q| && q[k] == (name, r.value)
                                   && forall j :: 0 <= j < k ==> q[j].0 != name
  {
    if |q| == 0 then None
    else if q[0].0 == name then Some(q[0].1)
    else
      var r := Get(q[1..], name);
      assert r.Some? ==> exists k :: 0 < k < |q| && q[k] == (name, r.value)
                                   && forall j :: 0 <= j < k ==> q[j].0 != name by {
        if r.Some? {
          var k' :| 0 <= k' < |q[1..]| && q[1..][k'] == (name, r.value)
                    && forall j :: 0 <= j < k' ==> q[1..][j].0 != name;
          assert forall j :: 0 < j < k' + 1 ==> q[j] == q[1..][j - 1];
        }
      }
      r
  }
}
