/** mcp_code_indexer/utils/json_utils.py: making nested values JSON-ready. */
module JsonUtils {
  import opened Wrappers
  import opened PyValue

  /** `convert_sets_to_lists`: dicts keep their keys and convert their values,
      sets become the list of their elements, lists convert item by item, and
      every other value is returned as it is. */
  function ConvertSetsToLists(v: Value): Value {
    match v
    case PDict(entries) =>
      PDict(seq(|entries|, i requires 0 <= i < |entries| => (entries[i].0, ConvertSetsToLists(entries[i].1))))
    case PSet(elems) => PList(elems)
    case PList(items) =>
      PList(seq(|items|, i requires 0 <= i < |items| => ConvertSetsToLists(items[i])))
    case _ => v
  }

  /** `safe_json_serialize`: the same conversion; on any value Python can build
      it leaves no set behind outside a tuple. */
  function SafeJsonSerialize(v: Value): (r: Value)
    ensures WellFormed(v) ==> NoSetsOutsideTuples(r)
  {
    if WellFormed(v) then ConvertedHasNoSets(v); ConvertSetsToLists(v)
    else ConvertSetsToLists(v)
  }

  /** No set occurs, except inside a tuple (which the conversion never enters). */
  predicate NoSetsOutsideTuples(v: Value) {
    match v
    case PSet(_) => false
    case PList(items) => forall i | 0 <= i < |items| :: NoSetsOutsideTuples(items[i])
    case PDict(entries) => forall i | 0 <= i < |entries| :: NoSetsOutsideTuples(entries[i].1)
    case _ => true
  }

  lemma HashableHasNoSets(v: Value)
    requires Hashable(v)
    ensures NoSetsOutsideTuples(v) && ConvertSetsToLists(v) == v
  {
  }

  lemma {:induction false} ConvertedHasNoSets(v: Value)
    requires WellFormed(v)
    ensures NoSetsOutsideTuples(ConvertSetsToLists(v))
  {
    match v
    case PDict(entries) =>
      forall i | 0 <= i < |entries| ensures NoSetsOutsideTuples(ConvertSetsToLists(entries[i].1)) {
        ConvertedHasNoSets(entries[i].1);
      }
    case PList(items) =>
      forall i | 0 <= i < |items| ensures NoSetsOutsideTuples(ConvertSetsToLists(items[i])) {
        ConvertedHasNoSets(items[i]);
      }
    case PSet(elems) =>
      forall i | 0 <= i < |elems| ensures NoSetsOutsideTuples(elems[i]) {
        HashableHasNoSets(elems[i]);
      }
    case _ =>
  }

  /** A dict becomes a dict with the same keys, in the same order, each value converted. */
  lemma DictShape(entries: seq<(Value, Value)>)
    ensures ConvertSetsToLists(PDict(entries)).PDict?
    ensures Keys(ConvertSetsToLists(PDict(entries)).entries) == Keys(entries)
    ensures forall i :: 0 <= i < |entries| ==>
      ConvertSetsToLists(PDict(entries)).entries[i].1 == ConvertSetsToLists(entries[i].1)
  {
    var r := ConvertSetsToLists(PDict(entries)).entries;
    var kr, ke := Keys(r), Keys(entries);
    assert |kr| == |ke|;
    forall i | 0 <= i < |kr| ensures kr[i] == ke[i] {
      assert r[i].0 == entries[i].0;
    }
  }

  /** A set becomes a list of exactly its members, each once; a list becomes a
      list of the same length with every item converted. */
  lemma SetAndListShape(v: Value)
    requires v.PSet? || v.PList?
    requires WellFormed(v)
    ensures ConvertSetsToLists(v).PList?
    ensures v.PSet? ==> var r := ConvertSetsToLists(v).items;
      |r| == |v.elems| && NoDups(r) && (forall x :: x in r <==> x in v.elems)
    ensures v.PList? ==> var r := ConvertSetsToLists(v).items;
      |r| == |v.items| && forall i :: 0 <= i < |r| ==> r[i] == ConvertSetsToLists(v.items[i])
  {
  }

  /** Converting twice is converting once. */
  lemma {:induction false} ConvertIdempotent(v: Value)
    requires WellFormed(v)
    ensures ConvertSetsToLists(ConvertSetsToLists(v)) == ConvertSetsToLists(v)
  {
    match v
    case PDict(entries) =>
      var r := ConvertSetsToLists(v);
      forall i | 0 <= i < |entries|
        ensures ConvertSetsToLists(ConvertSetsToLists(entries[i].1)) == ConvertSetsToLists(entries[i].1)
      {
        ConvertIdempotent(entries[i].1);
      }
      assert ConvertSetsToLists(r).entries == r.entries;
    case PList(items) =>
      var r := ConvertSetsToLists(v);
      forall i | 0 <= i < |items|
        ensures ConvertSetsToLists(ConvertSetsToLists(items[i])) == ConvertSetsToLists(items[i])
      {
        ConvertIdempotent(items[i]);
      }
      assert ConvertSetsToLists(r).items == r.items;
    case PSet(elems) =>
      forall i | 0 <= i < |elems| ensures ConvertSetsToLists(elems[i]) == elems[i] {
        HashableHasNoSets(elems[i]);
      }
      assert ConvertSetsToLists(PList(elems)).items == elems;
    case _ =>
  }

  /** The docstring example: {'a': {1, 2, 3}, 'b': [4, 5, {6, 7}]} becomes
      {'a': [1, 2, 3], 'b': [4, 5, [6, 7]]}. */
  lemma DocumentedExample()
    ensures SafeJsonSerialize(PDict([(PStr("a"), PSet([PInt(1), PInt(2), PInt(3)])),
                                     (PStr("b"), PList([PInt(4), PInt(5), PSet([PInt(6), PInt(7)])]))]))
         == PDict([(PStr("a"), PList([PInt(1), PInt(2), PInt(3)])),
                   (PStr("b"), PList([PInt(4), PInt(5), PList([PInt(6), PInt(7)])]))])
  {
    var inner := PList([PInt(4), PInt(5), PSet([PInt(6), PInt(7)])]);
    assert ConvertSetsToLists(inner).items == [PInt(4), PInt(5), PList([PInt(6), PInt(7)])];
  }
}
