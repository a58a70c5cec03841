/** JSON values as the case-conversion middleware sees them after
    json.loads, and the dictionary that a Python dict comprehension builds:
    keys stay unique, a repeated key keeps the position where it first
    appeared, and its value is the one inserted last. */
module Json {
  import opened Wrappers

  datatype Json =
    | Null
    | Bool(b: bool)
    | Num(n: real)
    | Str(s: string)
    | List(items: seq<Json>)
    | Dict(members: seq<(string, Json)>)

  predicate IsScalar(j: Json) {
    j.Null? || j.Bool? || j.Num? || j.Str?
  }

  function KeySet(ms: seq<(string, Json)>): set<string> {
    set i | 0 <= i < |ms| :: ms[i].0
  }

  predicate DistinctKeys(ms: seq<(string, Json)>) {
    forall i, j :: 0 <= i < j < |ms| ==> ms[i].0 != ms[j].0
  }

  lemma KeySetCons(m: (string, Json), ms: seq<(string, Json)>)
    ensures KeySet([m] + ms) == {m.0} + KeySet(ms)
  {
    var l := [m] + ms;
    forall x | x in KeySet(l) ensures x in {m.0} + KeySet(ms) {
      var i :| 0 <= i < |l| && l[i].0 == x;
      if i > 0 { assert ms[i - 1].0 == x; }
    }
    forall x | x in KeySet(ms) ensures x in KeySet(l) {
      var i :| 0 <= i < |ms| && ms[i].0 == x;
      assert l[i + 1].0 == x;
    }
    assert l[0].0 == m.0;
  }

  /** d.get(k) on a dict: the value of the first member with key k. */
  function Lookup(ms: seq<(string, Json)>, k: string): (r: Option<Json>)
    ensures r.Some? <==> k in KeySet(ms)
  {
    if ms == [] then None
    else if ms[0].0 == k then Some(ms[0].1)
    else
      assert KeySet(ms) == {ms[0].0} + KeySet(ms[1..]);
      Lookup(ms[1..], k)
  }

  /** The value of the last member with key k, if any. */
  function LastValue(ms: seq<(string, Json)>, k: string): (r: Option<Json>)
    ensures r.Some? <==> k in KeySet(ms)
    ensures forall i :: 0 <= i < |ms| && ms[i].0 == k && (forall j :: i < j < |ms| ==> ms[j].0 != k)
              ==> r == Some(ms[i].1)
  {
    if ms == [] then None
    else if ms[|ms| - 1].0 == k then Some(ms[|ms| - 1].1)
    else
      var init := ms[..|ms| - 1];
      assert forall i :: 0 <= i < |init| ==> init[i] == ms[i];
      assert KeySet(ms) == KeySet(init) + {ms[|ms| - 1].0};
      LastValue(init, k)
  }

  /** d[k] = v on an insertion-ordered dict: an existing key is overwritten
      where it stands, a new key is appended. */
  function Insert(ms: seq<(string, Json)>, k: string, v: Json): (r: seq<(string, Json)>)
    ensures KeySet(r) == KeySet(ms) + {k}
    ensures DistinctKeys(ms) ==> DistinctKeys(r)
    ensures forall k' :: Lookup(r, k') == if k' == k then Some(v) else Lookup(ms, k')
    ensures k !in KeySet(ms) ==> r == ms + [(k, v)]
    ensures k in KeySet(ms) ==> |r| == |ms| && forall i :: 0 <= i < |ms| ==> r[i].0 == ms[i].0
  {
    if ms == [] then
      assert [(k, v)][0].0 == k;
      [(k, v)]
    else if ms[0].0 == k then
      KeySetCons((k, v), ms[1..]);
      KeySetCons(ms[0], ms[1..]);
      assert ms == [ms[0]] + ms[1..];
      [(k, v)] + ms[1..]
    else
      var rest := Insert(ms[1..], k, v);
      var r := [ms[0]] + rest;
      KeySetCons(ms[0], ms[1..]);
      KeySetCons(ms[0], rest);
      assert ms == [ms[0]] + ms[1..];
      assert r[1..] == rest && r[0] == ms[0];
      assert forall k' :: Lookup(r, k') == if k' == ms[0].0 then Some(ms[0].1) else Lookup(rest, k');
      assert k !in KeySet(ms) ==> r == ms + [(k, v)];
      assert forall i :: 1 <= i < |r| ==> r[i] == rest[i - 1];
      r
  }

  /** {k: v for k, v in ms}: the dictionary built from a sequence of pairs. */
  function Collect(ms: seq<(string, Json)>): (r: seq<(string, Json)>)
    ensures DistinctKeys(r)
    ensures KeySet(r) == KeySet(ms)
    ensures forall k :: Lookup(r, k) == LastValue(ms, k)
  {
    if ms == [] then []
    else
      var init := ms[..|ms| - 1];
      assert KeySet(ms) == KeySet(init) + {ms[|ms| - 1].0};
      Insert(Collect(init), ms[|ms| - 1].0, ms[|ms| - 1].1)
  }

  /** The pairs of a dictionary with every key renamed by f and every value
      converted recursively, in their original order. */
  function MapKeys(j: Json, f: string -> string): (r: Json)
    ensures IsScalar(j) ==> r == j
    ensures j.List? <==> r.List?
    ensures j.Dict? <==> r.Dict?
    ensures j.List? ==> |r.items| == |j.items|
    ensures j.Dict? ==> DistinctKeys(r.members)
    ensures j.Dict? ==> KeySet(r.members) == set i | 0 <= i < |j.members| :: f(j.members[i].0)
  {
    match j
    case List(items) =>
      List(seq(|items|, i requires 0 <= i < |items| => MapKeys(items[i], f)))
    case Dict(ms) =>
      var renamed := seq(|ms|, i requires 0 <= i < |ms| => (f(ms[i].0), MapKeys(ms[i].1, f)));
      assert KeySet(renamed) == set i | 0 <= i < |ms| :: f(ms[i].0) by {
        assert forall i :: 0 <= i < |ms| ==> renamed[i].0 == f(ms[i].0);
      }
      Dict(Collect(renamed))
    case _ => j
  }

  /** Each list element is converted in place. */
  lemma MapKeysListItem(items: seq<Json>, f: string -> string, i: nat)
    requires i < |items|
    ensures MapKeys(List(items), f).items[i] == MapKeys(items[i], f)
  {
  }

  /** For each converted key, the dictionary holds the converted value of
      the LAST member whose key converts to it; earlier colliding members
      are overwritten. */
  lemma {:induction false} MapKeysLastWins(ms: seq<(string, Json)>, f: string -> string, i: nat)
    requires i < |ms|
    requires forall j :: i < j < |ms| ==> f(ms[j].0) != f(ms[i].0)
    ensures Lookup(MapKeys(Dict(ms), f).members, f(ms[i].0)) == Some(MapKeys(ms[i].1, f))
  {
    var renamed := seq(|ms|, n requires 0 <= n < |ms| => (f(ms[n].0), MapKeys(ms[n].1, f)));
    assert MapKeys(Dict(ms), f) == Dict(Collect(renamed));
    assert renamed[i] == (f(ms[i].0), MapKeys(ms[i].1, f));
    assert forall j :: i < j < |ms| ==> renamed[j].0 != renamed[i].0;
  }
}
