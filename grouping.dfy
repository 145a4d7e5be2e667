/**
 * The dictionary accumulation the report and history screens share: walk a
 * list, and for each element add its amount to the bucket of its key,
 * creating the bucket (with the element's name) the first time the key is
 * met, counting the elements and collecting a set of tags; then list the
 * buckets with `Object.entries`, in the order their keys were first met.
 *
 * Each caller says how an element is seen through a `view`: which key, name,
 * amount and tag it contributes.
 */
module Grouping {
  import opened Types

  datatype Entry = Entry(key: string, name: string, amount: int, tag: string)

  /** One bucket: the name of its first element, the summed amount, the element count and the tags seen. */
  datatype Group = Group(key: string, name: string, total: int, count: nat, tags: set<string>)

  function Total(g: Group): int {
    g.total
  }

  /** The elements whose key is `k`, in order. */
  function WithKey<T(!new)>(s: seq<T>, view: T -> Entry, k: string): (r: seq<T>)
    ensures |r| <= |s|
    ensures forall x :: x in r <==> x in s && view(x).key == k
  {
    if s == [] then []
    else WithKey(s[..|s| - 1], view, k) + (if view(s[|s| - 1]).key == k then [s[|s| - 1]] else [])
  }

  function SumAmounts<T>(s: seq<T>, view: T -> Entry): int {
    if s == [] then 0 else SumAmounts(s[..|s| - 1], view) + view(s[|s| - 1]).amount
  }

  function TagsOf<T>(s: seq<T>, view: T -> Entry): set<string> {
    if s == [] then {} else TagsOf(s[..|s| - 1], view) + {view(s[|s| - 1]).tag}
  }

  /**
   * What the bucket for `k` holds once every element is added, stated
   * without the dictionary: the name of the first element with key `k`,
   * the sum of their amounts, how many there are, and their tags.
   */
  function GroupOf<T(!new)>(s: seq<T>, view: T -> Entry, k: string): Group
    requires WithKey(s, view, k) != []
  {
    var mine := WithKey(s, view, k);
    Group(k, view(mine[0]).name, SumAmounts(mine, view), |mine|, TagsOf(mine, view))
  }

  /** Adds one element to its bucket. */
  function Add(m: map<string, Group>, e: Entry): map<string, Group> {
    if e.key in m then
      var g := m[e.key];
      m[e.key := g.(total := g.total + e.amount, count := g.count + 1, tags := g.tags + {e.tag})]
    else
      m[e.key := Group(e.key, e.name, e.amount, 1, {e.tag})]
  }

  /** The dictionary after adding the elements of `s` in order. */
  function Tally<T>(s: seq<T>, view: T -> Entry): map<string, Group> {
    if s == [] then map[] else Add(Tally(s[..|s| - 1], view), view(s[|s| - 1]))
  }

  /** The keys in the order they were first met (the order `Object.entries` lists them in). */
  function FirstSeen<T>(s: seq<T>, view: T -> Entry): seq<string> {
    if s == [] then []
    else
      var ks := FirstSeen(s[..|s| - 1], view);
      var k := view(s[|s| - 1]).key;
      if k in ks then ks else ks + [k]
  }

  predicate Distinct(ks: seq<string>) {
    forall i, j :: 0 <= i < j < |ks| ==> ks[i] != ks[j]
  }

  /**
   * The dictionary has a bucket for exactly the keys that occur, and each
   * bucket holds what `GroupOf` says.
   */
  lemma {:induction false} TallyIsGroupOf<T(!new)>(s: seq<T>, view: T -> Entry, k: string)
    ensures k in Tally(s, view) <==> WithKey(s, view, k) != []
    ensures k in Tally(s, view) ==> Tally(s, view)[k] == GroupOf(s, view, k)
    decreases |s|
  {
    if s != [] {
      var init, x := s[..|s| - 1], s[|s| - 1];
      TallyIsGroupOf(init, view, k);
      var before := WithKey(init, view, k);
      if view(x).key == k {
        assert WithKey(s, view, k) == before + [x];
        if before != [] {
          GroupOfExtend(s, view, k);
        } else {
          GroupOfSingle(s, view, k);
        }
      } else {
        assert WithKey(s, view, k) == before;
      }
    }
  }

  /** The first element with key `k` starts its bucket. */
  lemma GroupOfSingle<T(!new)>(s: seq<T>, view: T -> Entry, k: string)
    requires s != [] && WithKey(s, view, k) == [s[|s| - 1]]
    ensures var e := view(s[|s| - 1]);
            GroupOf(s, view, k) == Group(k, e.name, e.amount, 1, {e.tag})
  {
    var mine, e := WithKey(s, view, k), view(s[|s| - 1]);
    assert mine[..0] == [];
    assert SumAmounts(mine, view) == e.amount;
    assert TagsOf(mine, view) == {} + {e.tag} == {e.tag};
  }

  /** A later element with key `k` adds to its bucket and keeps the bucket's name. */
  lemma GroupOfExtend<T(!new)>(s: seq<T>, view: T -> Entry, k: string)
    requires s != [] && WithKey(s[..|s| - 1], view, k) != []
    requires WithKey(s, view, k) == WithKey(s[..|s| - 1], view, k) + [s[|s| - 1]]
    ensures var g, e := GroupOf(s[..|s| - 1], view, k), view(s[|s| - 1]);
            GroupOf(s, view, k) == g.(total := g.total + e.amount, count := g.count + 1, tags := g.tags + {e.tag})
  {
    var before := WithKey(s[..|s| - 1], view, k);
    var mine := WithKey(s, view, k);
    assert mine[..|mine| - 1] == before;
    assert mine[0] == before[0];
  }

  lemma {:induction false} FirstSeenKeys<T(!new)>(s: seq<T>, view: T -> Entry)
    ensures Distinct(FirstSeen(s, view))
    ensures forall k :: k in FirstSeen(s, view) <==> k in Tally(s, view)
    decreases |s|
  {
    if s != [] {
      FirstSeenKeys(s[..|s| - 1], view);
    }
  }

  /** The buckets listed in first-seen order. */
  function Groups<T(!new)>(s: seq<T>, view: T -> Entry): (r: seq<Group>)
    ensures |r| == |FirstSeen(s, view)|
  {
    var ks := FirstSeen(s, view);
    var m := Tally(s, view);
    FirstSeenKeys(s, view);
    seq(|ks|, i requires 0 <= i < |ks| => m[ks[i]])
  }

  /**
   * The listing has one bucket per key that occurs, no key twice, and each
   * bucket is the `GroupOf` its key.
   */
  lemma GroupsCharacterised<T(!new)>(s: seq<T>, view: T -> Entry)
    ensures forall i, j :: 0 <= i < j < |Groups(s, view)| ==> Groups(s, view)[i].key != Groups(s, view)[j].key
    ensures forall g :: g in Groups(s, view) ==> WithKey(s, view, g.key) != [] && g == GroupOf(s, view, g.key)
    ensures forall x :: x in s ==> exists g :: g in Groups(s, view) && g.key == view(x).key
  {
    var gs, ks, m := Groups(s, view), FirstSeen(s, view), Tally(s, view);
    FirstSeenKeys(s, view);
    forall i | 0 <= i < |gs|
      ensures gs[i].key == ks[i] && WithKey(s, view, ks[i]) != [] && gs[i] == GroupOf(s, view, ks[i])
    {
      TallyIsGroupOf(s, view, ks[i]);
    }
    forall x | x in s
      ensures exists g :: g in gs && g.key == view(x).key
    {
      var k := view(x).key;
      TallyIsGroupOf(s, view, k);
      assert x in WithKey(s, view, k);
      var i :| 0 <= i < |ks| && ks[i] == k;
      assert gs[i] in gs && gs[i].key == k;
    }
  }

  /**
   * One step of the source's loop body: create the bucket with a zero
   * total if the key is new, then add the element's amount, count and tag.
   */
  method AddToBucket(buckets: map<string, Group>, e: Entry) returns (after: map<string, Group>)
    ensures after == Add(buckets, e)
  {
    after := buckets;
    if e.key !in after {
      after := after[e.key := Group(e.key, e.name, 0, 0, {})];
    }
    var g := after[e.key];
    after := after[e.key := g.(total := g.total + e.amount, count := g.count + 1, tags := g.tags + {e.tag})];
    assert {} + {e.tag} == {e.tag};
  }

  /** The source's loop: a mutable dictionary filled element by element, then listed. */
  method GroupBy<T(!new)>(s: seq<T>, view: T -> Entry) returns (groups: seq<Group>)
    ensures groups == Groups(s, view)
  {
    var buckets: map<string, Group> := map[];
    var order: seq<string> := [];
    var i := 0;
    while i < |s|
      invariant 0 <= i <= |s|
      invariant buckets == Tally(s[..i], view)
      invariant order == FirstSeen(s[..i], view)
    {
      assert s[..i + 1][..i] == s[..i];
      FirstSeenKeys(s[..i], view);
      var e := view(s[i]);
      if e.key !in buckets {
        order := order + [e.key];
      }
      buckets := AddToBucket(buckets, e);
      i := i + 1;
    }
    assert s[..i] == s;
    FirstSeenKeys(s, view);
    groups := [];
    var j := 0;
    while j < |order|
      invariant 0 <= j <= |order|
      invariant |groups| == j
      invariant forall n :: 0 <= n < j ==> groups[n] == buckets[order[n]]
    {
      groups := groups + [buckets[order[j]]];
      j := j + 1;
    }
  }
}
