/** A collection resource of the router's REST API: a list of entries, each
    identified by the `id` the router keeps for it.  The functions here are
    what the router does with a collection when a request succeeds: a bulk
    DELETE drops the listed ids, a PUT to an id rewrites that entry, a POST
    adds an entry. */
module Table {

  datatype Entry<A> = Entry(id: string, attrs: A)

  /** The `id` of every entry, in order (`[lease["id"] for lease in ...]`). */
  function Ids<A>(t: seq<Entry<A>>): (ids: seq<string>)
    ensures |ids| == |t|
    ensures forall i :: 0 <= i < |t| ==> ids[i] == t[i].id
  {
    if |t| == 0 then [] else [t[0].id] + Ids(t[1..])
  }

  /** The router keys its collections by id: no two entries share one. */
  ghost predicate DistinctIds<A>(t: seq<Entry<A>>) {
    forall i, j :: 0 <= i < j < |t| ==> t[i].id != t[j].id
  }

  predicate HasId<A>(t: seq<Entry<A>>, id: string) {
    exists i :: 0 <= i < |t| && t[i].id == id
  }

  /** The entries whose id is not listed, in their original order. */
  function DeleteIds<A>(t: seq<Entry<A>>, ids: seq<string>): (r: seq<Entry<A>>)
    ensures |r| <= |t|
    ensures forall e :: e in r ==> e in t && e.id !in ids
  {
    if |t| == 0 then []
    else (if t[0].id in ids then [] else [t[0]]) + DeleteIds(t[1..], ids)
  }

  /** Every entry whose id is `id` gets the attributes `a`. */
  function UpdateId<A>(t: seq<Entry<A>>, id: string, a: A): (r: seq<Entry<A>>)
    ensures |r| == |t|
    ensures forall i :: 0 <= i < |t| ==> r[i].id == t[i].id
  {
    if |t| == 0 then []
    else [if t[0].id == id then Entry(id, a) else t[0]] + UpdateId(t[1..], id, a)
  }

  /** A POST that names its own id: a new entry, or the one with that id rewritten. */
  function InsertById<A>(t: seq<Entry<A>>, e: Entry<A>): seq<Entry<A>> {
    if HasId(t, e.id) then UpdateId(t, e.id, e.attrs) else t + [e]
  }

  function LongestId<A>(t: seq<Entry<A>>): (n: nat)
    ensures forall e :: e in t ==> |e.id| <= n
  {
    if |t| == 0 then 0
    else var m := LongestId(t[1..]); if |t[0].id| > m then |t[0].id| else m
  }

  /** The id the router gives an entry it creates; it is not in use yet. */
  function FreshId<A>(t: seq<Entry<A>>): (id: string)
    ensures !HasId(t, id)
  {
    "cfg" + seq(LongestId(t), _ => '0')
  }

  // ----- what the router's effects mean for a collection with distinct ids -----

  lemma {:induction false} DeleteAbsentIds<A>(t: seq<Entry<A>>, ids: seq<string>)
    requires forall i :: 0 <= i < |t| ==> t[i].id !in ids
    ensures DeleteIds(t, ids) == t
  {
    if |t| > 0 {
      DeleteAbsentIds(t[1..], ids);
      assert [t[0]] + t[1..] == t;
    }
  }

  lemma {:induction false} TailDistinct<A>(t: seq<Entry<A>>)
    requires DistinctIds(t) && |t| > 0
    ensures DistinctIds(t[1..])
  {
    var rest := t[1..];
    forall a, b | 0 <= a < b < |rest| ensures rest[a].id != rest[b].id {
      assert rest[a] == t[a + 1] && rest[b] == t[b + 1];
    }
  }

  /** Deleting the id of entry `i` removes that entry and nothing else. */
  lemma {:induction false} DeleteIdAt<A>(t: seq<Entry<A>>, i: nat)
    requires DistinctIds(t) && i < |t|
    ensures DeleteIds(t, [t[i].id]) == t[..i] + t[i + 1..]
  {
    var rest := t[1..];
    if i == 0 {
      forall k | 0 <= k < |rest| ensures rest[k].id !in [t[0].id] {
        assert rest[k] == t[k + 1];
      }
      DeleteAbsentIds(rest, [t[0].id]);
    } else {
      TailDistinct(t);
      assert rest[i - 1] == t[i];
      DeleteIdAt(rest, i - 1);
      assert [t[0]] + (rest[..i - 1] + rest[i..]) == t[..i] + t[i + 1..];
    }
  }

  /** Deleting every id of the collection leaves it empty. */
  lemma {:induction false} DeleteAllIds<A>(t: seq<Entry<A>>, ids: seq<string>)
    requires forall i :: 0 <= i < |t| ==> t[i].id in ids
    ensures DeleteIds(t, ids) == []
  {
    if |t| > 0 {
      DeleteAllIds(t[1..], ids);
    }
  }

  lemma {:induction false} DeleteIdsKeepsDistinct<A>(t: seq<Entry<A>>, ids: seq<string>)
    requires DistinctIds(t)
    ensures DistinctIds(DeleteIds(t, ids))
  {
    if |t| > 0 {
      DeleteIdsKeepsDistinct(t[1..], ids);
      var rest := DeleteIds(t[1..], ids);
      forall e | e in rest ensures e.id != t[0].id {
        var k :| 0 <= k < |t[1..]| && t[1..][k] == e;
        assert t[k + 1] == e;
      }
    }
  }

  /** Rewriting the entry `i` by its id changes that entry and nothing else. */
  lemma {:induction false} UpdateIdAt<A>(t: seq<Entry<A>>, i: nat, a: A)
    requires DistinctIds(t) && i < |t|
    ensures UpdateId(t, t[i].id, a) == t[i := Entry(t[i].id, a)]
  {
    if |t| > 0 {
      if i == 0 {
        UpdateAbsentId(t[1..], t[0].id, a);
      } else {
        assert t[0].id != t[i].id;
        UpdateIdAt(t[1..], i - 1, a);
        assert t[1..][i - 1] == t[i];
        assert [t[0]] + t[1..][i - 1 := Entry(t[i].id, a)] == t[i := Entry(t[i].id, a)];
      }
    }
  }

  lemma {:induction false} UpdateAbsentId<A>(t: seq<Entry<A>>, id: string, a: A)
    requires forall i :: 0 <= i < |t| ==> t[i].id != id
    ensures UpdateId(t, id, a) == t
  {
    if |t| > 0 {
      UpdateAbsentId(t[1..], id, a);
      assert [t[0]] + t[1..] == t;
    }
  }

  lemma {:induction false} UpdateIdKeepsDistinct<A>(t: seq<Entry<A>>, id: string, a: A)
    requires DistinctIds(t)
    ensures DistinctIds(UpdateId(t, id, a))
  {
    var r := UpdateId(t, id, a);
    assert forall i :: 0 <= i < |t| ==> r[i].id == t[i].id;
  }

  /** An entry created under `FreshId` keeps the ids distinct. */
  lemma {:induction false} AppendFreshKeepsDistinct<A>(t: seq<Entry<A>>, a: A)
    requires DistinctIds(t)
    ensures DistinctIds(t + [Entry(FreshId(t), a)])
  {
    var e := Entry(FreshId(t), a);
    var r := t + [e];
    forall i | 0 <= i < |t| ensures r[i].id != e.id {
      assert r[i] == t[i];
    }
  }

  lemma {:induction false} InsertByIdKeepsDistinct<A>(t: seq<Entry<A>>, e: Entry<A>)
    requires DistinctIds(t)
    ensures DistinctIds(InsertById(t, e))
    ensures exists k :: 0 <= k < |InsertById(t, e)| && InsertById(t, e)[k] == e
  {
    if HasId(t, e.id) {
      var i :| 0 <= i < |t| && t[i].id == e.id;
      UpdateIdAt(t, i, e.attrs);
      assert InsertById(t, e)[i] == e;
    } else {
      assert InsertById(t, e)[|t|] == e;
    }
  }
}
