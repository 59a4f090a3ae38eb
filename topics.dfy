/**
 * A topic: a map from subsection id to question bank, with get-or-create
 * lookup and aggregation of several subsections into one bank.
 *
 * Go's Topic holds a map, which is a reference: even the value-receiver
 * BuildQuestionsSet writes into the caller's map through GetSubsection.
 * The class `Topic` models that shared map as a field.
 */
module Topics {
  import opened QuestionBank

  /** Go's `topic.list[id]`: the stored bank, or the zero value (nil slices) for a missing id. */
  function Fetch(list: map<string, QA>, id: string): (r: QA)
    ensures id !in list ==> r.nilQuestions && r.GetCount() == 0 && r.Valid()
  {
    if id in list then list[id] else QA([], [], true)
  }

  /** Every stored bank has matched questions and answers. */
  predicate ValidList(list: map<string, QA>) {
    forall id :: id in list ==> list[id].Valid()
  }

  /**
   * GetSubsection: a stored non-nil bank is returned and nothing changes;
   * otherwise a fresh NewQA is stored under `id` and returned.
   */
  function GetOrCreate(list: map<string, QA>, id: string, v: Variant): (r: (QA, map<string, QA>))
    ensures !Fetch(list, id).nilQuestions ==> r == (list[id], list)
    ensures Fetch(list, id).nilQuestions ==> r == (NewQA(v), list[id := NewQA(v)])
    ensures r.0.GetCount() == Fetch(list, id).GetCount()
  {
    var qa := Fetch(list, id);
    if qa.nilQuestions then (NewQA(v), list[id := NewQA(v)]) else (qa, list)
  }

  /** The banks that BuildQuestionsSet reads for `ids`, looked up in `list`. */
  function Banks(list: map<string, QA>, ids: seq<string>): (r: seq<QA>)
    ensures |r| == |ids|
    ensures forall k :: 0 <= k < |ids| ==> r[k] == Fetch(list, ids[k])
  {
    seq(|ids|, k requires 0 <= k < |ids| => Fetch(list, ids[k]))
  }

  /**
   * The loop of BuildQuestionsSet over `ids`, starting from `list`: the
   * aggregated bank and the map after the GetSubsection calls.
   */
  function BuildSet(list: map<string, QA>, ids: seq<string>, v: Variant): (QA, map<string, QA>)
    decreases |ids|
  {
    if ids == [] then (NewQA(v), list)
    else
      var (qa, l) := BuildSet(list, ids[..|ids| - 1], v);
      var (b, l2) := GetOrCreate(l, ids[|ids| - 1], v);
      (qa.Concat([b]), l2)
  }

  /**
   * `l` holds the same non-empty banks as `list`, so concatenating from
   * either gives the same result.
   */
  ghost predicate SameBanks(l: map<string, QA>, list: map<string, QA>) {
    forall id :: Fetch(l, id).GetCount() == Fetch(list, id).GetCount() &&
      (Fetch(l, id).GetCount() > 0 ==> Fetch(l, id) == Fetch(list, id))
  }

  /** Every non-nil bank of `list` is still stored, unchanged, in `l`. */
  predicate Keeps(l: map<string, QA>, list: map<string, QA>) {
    forall id :: id in list && !list[id].nilQuestions ==> id in l && l[id] == list[id]
  }

  /** The ids written in `ids`. */
  function Elems(ids: seq<string>): set<string> {
    set id | id in ids
  }

  lemma ElemsSnoc(ids: seq<string>, x: string)
    ensures Elems(ids + [x]) == Elems(ids) + {x}
  {
  }

  /** Concatenating a bank only depends on it when it is non-empty. */
  lemma ConcatSameBank(qa: QA, b: QA, c: QA)
    requires b.GetCount() == c.GetCount() && (b.GetCount() > 0 ==> b == c)
    ensures qa.Concat([b]) == qa.Concat([c])
  {
    assert [b][..0] == [] && [c][..0] == [];
  }

  /** One GetSubsection call keeps the non-empty banks. */
  lemma GetOrCreateSameBanks(l: map<string, QA>, list: map<string, QA>, id: string, v: Variant)
    requires SameBanks(l, list)
    ensures SameBanks(GetOrCreate(l, id, v).1, list)
    ensures GetOrCreate(l, id, v).0.GetCount() == Fetch(list, id).GetCount()
    ensures GetOrCreate(l, id, v).0.GetCount() > 0 ==> GetOrCreate(l, id, v).0 == Fetch(list, id)
  {
    var l2 := GetOrCreate(l, id, v).1;
    forall other ensures Fetch(l2, other).GetCount() == Fetch(list, other).GetCount() &&
      (Fetch(l2, other).GetCount() > 0 ==> Fetch(l2, other) == Fetch(list, other))
    {
      if other != id {
        assert Fetch(l2, other) == Fetch(l, other);
      } else {
        assert Fetch(l, id).GetCount() == Fetch(list, id).GetCount();
      }
    }
  }

  /**
   * BuildQuestionsSet(ids...) is the concatenation of the banks stored for
   * `ids`, in the given order and with repetitions; the GetSubsection calls
   * leave every non-empty bank as it was.
   */
  lemma {:induction false} BuildSetBanks(list: map<string, QA>, ids: seq<string>, v: Variant)
    ensures BuildSet(list, ids, v).0 == NewQA(v).Concat(Banks(list, ids))
    ensures SameBanks(BuildSet(list, ids, v).1, list)
    decreases |ids|
  {
    if ids != [] {
      var init := ids[..|ids| - 1];
      var last := ids[|ids| - 1];
      BuildSetBanks(list, init, v);
      var (qa, l) := BuildSet(list, init, v);
      GetOrCreateSameBanks(l, list, last, v);
      var b := GetOrCreate(l, last, v).0;
      assert ids == init + [last];
      BanksSnoc(list, init, last);
      ConcatSplit(NewQA(v), Banks(list, init), [Fetch(list, last)]);
      ConcatSameBank(qa, b, Fetch(list, last));
    }
  }

  /** The banks of one more id: those before, then its own. */
  lemma BanksSnoc(list: map<string, QA>, ids: seq<string>, id: string)
    ensures Banks(list, ids + [id]) == Banks(list, ids) + [Fetch(list, id)]
  {
  }

  /**
   * The ids stored after BuildQuestionsSet(ids...): every id asked for is
   * now stored (an unknown one as an empty subsection), and no other id is
   * added.
   */
  lemma {:induction false} BuildSetKeys(list: map<string, QA>, ids: seq<string>, v: Variant)
    ensures BuildSet(list, ids, v).1.Keys == list.Keys + Elems(ids)
    decreases |ids|
  {
    if ids != [] {
      var init := ids[..|ids| - 1];
      var last := ids[|ids| - 1];
      BuildSetKeys(list, init, v);
      var l := BuildSet(list, init, v).1;
      assert BuildSet(list, ids, v).1.Keys == l.Keys + {last};
      ElemsSnoc(init, last);
      assert ids == init + [last];
    }
  }

  /** BuildQuestionsSet(ids...) keeps every non-nil bank of the topic. */
  lemma {:induction false} BuildSetKeeps(list: map<string, QA>, ids: seq<string>, v: Variant)
    ensures Keeps(BuildSet(list, ids, v).1, list)
    decreases |ids|
  {
    if ids != [] {
      var init := ids[..|ids| - 1];
      var last := ids[|ids| - 1];
      BuildSetKeeps(list, init, v);
      var l := BuildSet(list, init, v).1;
      var l2 := GetOrCreate(l, last, v).1;
      forall id | id in list && !list[id].nilQuestions ensures id in l2 && l2[id] == list[id] {
        assert id in l && l[id] == list[id];
      }
    }
  }

  /** The number of pairs BuildQuestionsSet(ids...) gathers: the sum of the selected counts. */
  lemma BuildSetCount(list: map<string, QA>, ids: seq<string>, v: Variant)
    requires ValidList(list)
    ensures BuildSet(list, ids, v).0.GetCount() == SumCounts(Banks(list, ids))
  {
    BuildSetBanks(list, ids, v);
    ConcatCount(NewQA(v), Banks(list, ids));
  }

  /** `names` lists every id of `list` exactly once. */
  predicate Enumerates(names: seq<string>, list: map<string, QA>) {
    && |names| == |list|
    && (forall k :: 0 <= k < |names| ==> names[k] in list)
    && (forall id :: id in list ==> id in names)
    && (forall j, k :: 0 <= j < k < |names| ==> names[j] != names[k])
  }

  /** Some id of a non-empty map. */
  ghost function Pick(list: map<string, QA>): (id: string)
    requires |list| > 0
    ensures id in list
  {
    var id :| id in list; id
  }

  /** The total count of all banks of `list`, independently of any order. */
  ghost function TotalCount(list: map<string, QA>): nat
    decreases |list|
  {
    if |list| == 0 then 0
    else list[Pick(list)].GetCount() + TotalCount(list - {Pick(list)})
  }

  /** TotalCount may take the banks out in any order. */
  lemma {:induction false} TotalCountRemove(list: map<string, QA>, x: string)
    requires x in list
    ensures TotalCount(list) == list[x].GetCount() + TotalCount(list - {x})
    decreases |list|
  {
    var id := Pick(list);
    if id != x {
      var rest := list - {id};
      assert x in rest;
      TotalCountRemove(rest, x);
      var both := rest - {x};
      assert id in list - {x};
      TotalCountRemove(list - {x}, id);
      assert (list - {x}) - {id} == both;
    }
  }

  /** Storing `qa` under `id` changes the total count by the difference of the two banks' counts. */
  lemma TotalCountUpdate(list: map<string, QA>, id: string, qa: QA)
    ensures TotalCount(list[id := qa]) + Fetch(list, id).GetCount() == TotalCount(list) + qa.GetCount()
  {
    TotalCountRemove(list[id := qa], id);
    RemoveUpdated(list, id, qa);
    if id in list {
      TotalCountRemove(list, id);
    }
  }

  /** Removing a key just stored gives the map without that key. */
  lemma RemoveUpdated<K, V>(m: map<K, V>, k: K, v: V)
    ensures m[k := v] - {k} == m - {k}
    ensures k !in m ==> m - {k} == m
  {
  }

  /** Without its last id, an enumeration enumerates the map without that id. */
  lemma EnumeratesInit(names: seq<string>, list: map<string, QA>)
    requires Enumerates(names, list) && names != []
    ensures Enumerates(names[..|names| - 1], list - {names[|names| - 1]})
  {
    var init := names[..|names| - 1];
    var last := names[|names| - 1];
    var rest := list - {last};
    assert |rest| == |list| - 1;
    forall k | 0 <= k < |init| ensures init[k] in rest {
      assert init[k] == names[k] != last;
    }
    forall id | id in rest ensures id in init {
      var k :| 0 <= k < |names| && names[k] == id;
      assert k != |names| - 1;
      assert init[k] == id;
    }
  }

  /** Looking up the first ids of an enumeration without its last id. */
  lemma BanksInit(names: seq<string>, list: map<string, QA>)
    requires Enumerates(names, list) && names != []
    ensures Banks(list, names)[..|names| - 1] == Banks(list - {names[|names| - 1]}, names[..|names| - 1])
    ensures Banks(list, names)[|names| - 1] == list[names[|names| - 1]]
  {
    EnumeratesInit(names, list);
  }

  /** Summing the banks of any enumeration of the ids gives the total count. */
  lemma {:induction false} EnumerationCount(names: seq<string>, list: map<string, QA>)
    requires Enumerates(names, list)
    ensures SumCounts(Banks(list, names)) == TotalCount(list)
    decreases |names|
  {
    if names == [] {
      assert |list| == 0;
    } else {
      var init := names[..|names| - 1];
      var last := names[|names| - 1];
      var rest := list - {last};
      EnumeratesInit(names, list);
      EnumerationCount(init, rest);
      var banks := Banks(list, names);
      BanksInit(names, list);
      assert SumCounts(banks) == SumCounts(Banks(rest, init)) + list[last].GetCount();
      TotalCountRemove(list, last);
    }
  }

  /**
   * With no ids, BuildQuestionsSet takes the names in map order, which Go
   * leaves unspecified; whatever that order, the count is the total count,
   * and no subsection is added.
   */
  lemma AllSubsectionsCount(list: map<string, QA>, names: seq<string>, v: Variant)
    requires ValidList(list) && Enumerates(names, list)
    ensures BuildSet(list, names, v).0.GetCount() == TotalCount(list)
    ensures BuildSet(list, names, v).1.Keys == list.Keys
  {
    BuildSetCount(list, names, v);
    EnumerationCount(names, list);
    BuildSetKeys(list, names, v);
  }

  /** The subsections of a topic: Go's map from id to bank, shared by every copy of the Topic value. */
  class Topic {
    var list: map<string, QA>
    const variant: Variant

    /** NewTopic: no subsection. */
    constructor (v: Variant)
      ensures list == map[] && variant == v
    {
      list := map[];
      variant := v;
    }

    /** GetSubsectionsCount: the number of ids stored. */
    function GetSubsectionsCount(): (n: nat)
      reads this
      ensures n == 0 <==> list == map[]
    {
      |list|
    }

    /** GetSubsection: get-or-create. */
    method GetSubsection(id: string) returns (qa: QA)
      modifies this
      ensures (qa, list) == GetOrCreate(old(list), id, variant)
    {
      qa := Fetch(list, id);
      if qa.nilQuestions {
        qa := NewQA(variant);
        list := list[id := qa];
      }
    }

    /** SetSubsection: `id` now maps to `qa`, overwriting; other ids keep their banks. */
    method SetSubsection(id: string, qa: QA)
      modifies this
      ensures list == old(list)[id := qa]
    {
      list := list[id := qa];
    }

    /** GetSubsectionsName: every id exactly once, in an order Go does not specify. */
    method GetSubsectionsName() returns (names: seq<string>)
      ensures Enumerates(names, list)
      ensures |names| == GetSubsectionsCount()
    {
      names := [];
      var rest := list.Keys;
      while rest != {}
        invariant rest <= list.Keys
        invariant forall k :: 0 <= k < |names| ==> names[k] in list && names[k] !in rest
        invariant forall j, k :: 0 <= j < k < |names| ==> names[j] != names[k]
        invariant forall id :: id in list ==> id in rest || id in names
        invariant |names| + |rest| == |list|
        decreases |rest|
      {
        var id :| id in rest;
        names := names + [id];
        rest := rest - {id};
      }
    }

    /**
     * BuildQuestionsSet(ids...): the selected banks concatenated in order,
     * or all banks when `ids` is empty. GetSubsection stores unknown ids.
     */
    method BuildQuestionsSet(ids: seq<string>) returns (qa: QA)
      modifies this
      ensures ids != [] ==> (qa, list) == BuildSet(old(list), ids, variant)
      ensures ids == [] ==> exists names :: Enumerates(names, old(list)) && (qa, list) == BuildSet(old(list), names, variant)
      ensures ids == [] && ValidList(old(list)) ==> qa.GetCount() == TotalCount(old(list)) && list.Keys == old(list).Keys
    {
      var subsections := ids;
      if |subsections| == 0 {
        subsections := GetSubsectionsName();
      }
      ghost var start := list;
      qa := Gather(subsections);
      if ids == [] && ValidList(start) {
        AllSubsectionsCount(start, subsections, variant);
      }
    }

    /** The loop of BuildQuestionsSet: GetSubsection then Concatenate, for each id in turn. */
    method Gather(subsections: seq<string>) returns (qa: QA)
      modifies this
      ensures (qa, list) == BuildSet(old(list), subsections, variant)
    {
      qa := NewQA(variant);
      ghost var start := list;
      var i := 0;
      while i < |subsections|
        invariant 0 <= i <= |subsections|
        invariant (qa, list) == BuildSet(start, subsections[..i], variant)
      {
        assert subsections[..i + 1][..i] == subsections[..i];
        var qaForID := GetSubsection(subsections[i]);
        qa := qa.Concat([qaForID]);
        i := i + 1;
      }
      assert subsections[..i] == subsections;
    }
  }
}
