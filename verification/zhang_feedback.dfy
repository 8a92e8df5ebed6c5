/**
 * The essay feedback panel: feedback items grouped by their `type` (an
 * item without one goes under "其他"), a colour per type, the avatar mood
 * for the overall score, and the sample feedback shown when there is no
 * feedback.
 */
module ZhangFeedback {
  import opened Wrappers
  import opened Json

  /** Groups in the order their type was first met, each with its items in
      feedback order. */
  type Groups = seq<(string, seq<Json>)>

  const OtherType: string := "其他"

  /** `item.type || '其他'`, as the property key it is used as. */
  function TypeOf(item: Json): string {
    var t := Get(item, "type");
    if Present(t) then PropertyKey(t) else OtherType
  }

  /** The group stored under `key`, if any. */
  function Find(groups: Groups, key: string): Option<seq<Json>> {
    if |groups| == 0 then None
    else if groups[0].0 == key then Some(groups[0].1)
    else Find(groups[1..], key)
  }

  predicate DistinctTypes(groups: Groups) {
    forall i, j :: 0 <= i < j < |groups| ==> groups[i].0 != groups[j].0
  }

  /** The number of items over all groups. */
  function Total(groups: Groups): nat {
    if |groups| == 0 then 0 else |groups[0].1| + Total(groups[1..])
  }

  /** One step of the `reduce`: append the item to its type's group,
      opening the group at the end when the type is new. */
  function AddItem(groups: Groups, key: string, item: Json): Groups {
    if |groups| == 0 then [(key, [item])]
    else if groups[0].0 == key then [(key, groups[0].1 + [item])] + groups[1..]
    else [groups[0]] + AddItem(groups[1..], key, item)
  }

  /** A type without a group is no group's type. */
  lemma {:induction false} FindNone(groups: Groups, key: string)
    requires Find(groups, key).None?
    ensures forall j :: 0 <= j < |groups| ==> groups[j].0 != key
  {
    if |groups| > 0 {
      FindNone(groups[1..], key);
      assert forall j :: 1 <= j < |groups| ==> groups[j] == groups[1..][j - 1];
    }
  }

  /** The step keeps the groups in place and, for a new type, opens one
      group at the end. */
  lemma {:induction false} AddItemShape(groups: Groups, key: string, item: Json)
    ensures Find(groups, key).None? ==> AddItem(groups, key, item) == groups + [(key, [item])]
    ensures Find(groups, key).Some? ==> |AddItem(groups, key, item)| == |groups|
    ensures forall j :: 0 <= j < |groups| ==> AddItem(groups, key, item)[j].0 == groups[j].0
  {
    if |groups| > 0 && groups[0].0 != key {
      AddItemShape(groups[1..], key, item);
      var rest := AddItem(groups[1..], key, item);
      assert AddItem(groups, key, item) == [groups[0]] + rest;
      assert forall j :: 1 <= j < |groups| ==> groups[j] == groups[1..][j - 1];
      if Find(groups, key).None? {
        assert [groups[0]] + (groups[1..] + [(key, [item])]) == groups + [(key, [item])];
      }
    }
  }

  /** The step appends the item to its own type's group and to no other. */
  lemma {:induction false} AddItemFind(groups: Groups, key: string, item: Json)
    ensures Find(AddItem(groups, key, item), key) == Some(Find(groups, key).GetOr([]) + [item])
    ensures forall k :: k != key ==> Find(AddItem(groups, key, item), k) == Find(groups, k)
  {
    if |groups| == 0 {
      assert AddItem(groups, key, item)[1..] == [];
      assert [] + [item] == [item];
    } else if groups[0].0 == key {
      assert AddItem(groups, key, item)[1..] == groups[1..];
    } else {
      AddItemFind(groups[1..], key, item);
      assert AddItem(groups, key, item)[1..] == AddItem(groups[1..], key, item);
    }
  }

  /** The step adds exactly one item. */
  lemma {:induction false} AddItemTotal(groups: Groups, key: string, item: Json)
    ensures Total(AddItem(groups, key, item)) == Total(groups) + 1
  {
    if |groups| == 0 {
      assert AddItem(groups, key, item)[1..] == [];
    } else if groups[0].0 == key {
      assert AddItem(groups, key, item)[1..] == groups[1..];
    } else {
      AddItemTotal(groups[1..], key, item);
      assert AddItem(groups, key, item)[1..] == AddItem(groups[1..], key, item);
    }
  }

  /** The step never gives two groups the same type. */
  lemma AddItemDistinct(groups: Groups, key: string, item: Json)
    requires DistinctTypes(groups)
    ensures DistinctTypes(AddItem(groups, key, item))
  {
    AddItemShape(groups, key, item);
    if Find(groups, key).None? {
      FindNone(groups, key);
    }
  }

  /** The grouping of items that are not `null`, as `reduce` builds it. */
  function GroupItems(items: seq<Json>): (r: Groups)
    ensures DistinctTypes(r)
    decreases |items|
  {
    if |items| == 0 then []
    else
      var last := items[|items| - 1];
      AddItemDistinct(GroupItems(items[..|items| - 1]), TypeOf(last), last);
      AddItem(GroupItems(items[..|items| - 1]), TypeOf(last), last)
  }

  /** The reference definition: the items of one type, in feedback order. */
  function ItemsOfType(items: seq<Json>, key: string): (r: seq<Json>)
    ensures |r| <= |items|
    ensures forall x :: x in r ==> x in items && TypeOf(x) == key
    decreases |items|
  {
    if |items| == 0 then []
    else
      var last := items[|items| - 1];
      var rest := ItemsOfType(items[..|items| - 1], key);
      if TypeOf(last) == key then rest + [last] else rest
  }

  /** The grouping agrees with the reference: a type has a group exactly
      when some item has that type, the group holds exactly the items of
      that type in order, and no item is lost or repeated. */
  lemma {:induction false} GroupItemsSpec(items: seq<Json>)
    ensures forall k :: (Find(GroupItems(items), k) ==
      if ItemsOfType(items, k) == [] then None else Some(ItemsOfType(items, k)))
    ensures Total(GroupItems(items)) == |items|
    decreases |items|
  {
    if |items| > 0 {
      var init := items[..|items| - 1];
      var last := items[|items| - 1];
      GroupItemsSpec(init);
      AddItemFind(GroupItems(init), TypeOf(last), last);
      AddItemTotal(GroupItems(init), TypeOf(last), last);
    }
  }

  /** A type has a group exactly when some item carries it. */
  lemma TypeHasGroup(items: seq<Json>, key: string)
    ensures Find(GroupItems(items), key).Some? <==> exists i :: 0 <= i < |items| && TypeOf(items[i]) == key
  {
    GroupItemsSpec(items);
    if exists i :: 0 <= i < |items| && TypeOf(items[i]) == key {
      var i :| 0 <= i < |items| && TypeOf(items[i]) == key;
      ItemsOfTypeHas(items, key, i);
    } else if ItemsOfType(items, key) != [] {
      var x := ItemsOfType(items, key)[0];
      assert x in items;
    }
  }

  lemma {:induction false} ItemsOfTypeHas(items: seq<Json>, key: string, i: nat)
    requires i < |items| && TypeOf(items[i]) == key
    ensures ItemsOfType(items, key) != []
    decreases |items|
  {
    if i < |items| - 1 {
      var last := items[|items| - 1];
      if TypeOf(last) != key {
        assert items[..|items| - 1][i] == items[i];
        ItemsOfTypeHas(items[..|items| - 1], key, i);
      }
    }
  }

  /** `groupedFeedback`: nothing to group unless the feedback is a truthy
      array; a `null` item makes `item.type` throw, which is `None`. */
  function GroupFeedback(feedback: Option<Json>): (r: Option<Groups>)
    ensures r.None? <==> Present(feedback) && feedback.value.JArr? && JNull in feedback.value.items
    ensures !(Present(feedback) && feedback.value.JArr?) ==> r == Some([])
    ensures r.Some? && Present(feedback) && feedback.value.JArr? ==> Total(r.value) == |feedback.value.items|
  {
    if !Present(feedback) || !feedback.value.JArr? then Some([])
    else
      var items := feedback.value.items;
      if JNull in items then None
      else
        GroupItemsSpec(items);
        Some(GroupItems(items))
  }

  /** The colours of the known types. */
  const TypeColors: map<string, string> := map[
    "语法" := "text-blue-500 bg-blue-50",
    "词汇" := "text-green-500 bg-green-50",
    "结构" := "text-purple-500 bg-purple-50",
    "内容" := "text-amber-500 bg-amber-50",
    OtherType := "text-gray-500 bg-gray-50"]

  /** `typeColors[type] || typeColors['其他']`. */
  function TypeColor(key: string): (r: string)
    ensures key in TypeColors ==> r == TypeColors[key]
    ensures key !in TypeColors ==> r == TypeColors[OtherType]
  {
    if key in TypeColors && |TypeColors[key]| > 0 then TypeColors[key] else TypeColors[OtherType]
  }

  /** An item without a type, or with one the colour table does not know,
      is drawn in the colour of "其他"; only the former is also listed
      under the "其他" heading. */
  lemma UntypedAndUnknownTypes(item: Json)
    ensures !Present(Get(item, "type")) ==> TypeOf(item) == OtherType && TypeColor(TypeOf(item)) == "text-gray-500 bg-gray-50"
    ensures TypeColor("拼写") == TypeColor(OtherType)
  {
  }

  /** `!feedback || !feedback.length`: the sample feedback shows when
      there is no feedback or its `length` is falsy. */
  predicate ShowSamples(feedback: Option<Json>) {
    !Present(feedback) ||
    match feedback.value
    case JArr(items) => |items| == 0
    case JStr(s) => |s| == 0
    case JObj(_) => !Present(Get(feedback.value, "length"))
    case _ => true
  }

  /** For array feedback, the samples show exactly when no group does. An
      object whose `length` is truthy shows neither. */
  lemma SamplesReplaceGroups(feedback: Option<Json>)
    requires Present(feedback) && feedback.value.JArr? && GroupFeedback(feedback).Some?
    ensures ShowSamples(feedback) <==> GroupFeedback(feedback) == Some([])
    ensures var odd := Some(JObj([("length", JNum(1))]));
      !ShowSamples(odd) && GroupFeedback(odd) == Some([])
  {
    var items := feedback.value.items;
    GroupItemsSpec(items);
    if |items| > 0 {
      assert Total(GroupFeedback(feedback).value) > 0;
    }
  }

  /** `overallScore >= 80 ? 'happy' : overallScore >= 60 ? 'default' :
      'thinking'`; a missing score compares false and gives 'thinking'. */
  function ScoreMood(score: Option<int>): (r: string)
    ensures score.None? ==> r == "thinking"
  {
    if score.Some? && score.value >= 80 then "happy"
    else if score.Some? && score.value >= 60 then "default"
    else "thinking"
  }

  function MoodRank(mood: string): nat {
    if mood == "happy" then 2 else if mood == "default" then 1 else 0
  }

  /** A higher score never gives a gloomier avatar, and the two thresholds
      are where the mood changes. */
  lemma ScoreMoodMonotone(a: int, b: int)
    requires a <= b
    ensures MoodRank(ScoreMood(Some(a))) <= MoodRank(ScoreMood(Some(b)))
    ensures ScoreMood(Some(79)) == "default" && ScoreMood(Some(80)) == "happy"
    ensures ScoreMood(Some(59)) == "thinking" && ScoreMood(Some(60)) == "default"
  {
  }

  /** `overallScore !== undefined`: a score of 0 is still shown. */
  predicate ScoreShown(score: Option<int>) {
    score.Some?
  }
}
