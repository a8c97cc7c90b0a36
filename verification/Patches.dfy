/** calculatePatch: from compiled operations to the text of a JSON patch
    (core/modrulestoreitem.go). */
module Patches {
  import opened Values
  import opened Documents
  import opened Paths
  import opened Soundness
  import opened Selectors
  import opened Picks
  import opened Placeholders
  import opened SelectKeys
  import opened Formats
  import opened PathTemplates
  import opened Guards
  import opened Pointers
  import opened Addressing
  import opened PatchTexts

  /** A compiled operation. The select gives a map or an error; the value template, together
      with the conversion of its text to JSON, is an opaque function. */
  datatype PatchOperation = PatchOperation(
    op: string,
    select: Option<Json -> Result<map<string, Json>>>,
    path: string,
    value: (Json, seq<Part>, Option<Json>) -> Result<string>)

  datatype PatchItem = PatchItem(path: string, parts: seq<Part>, item: Option<Json>)

  /** The paths of templates that compile to a format with other verbs than Sprintf models here:
      any function whatever. */
  const OTHER_PATH: (string, seq<Part>) -> string

  /** The rendered path of a select key. */
  function PathFor(template: string, key: string): string {
    match Render(template, KeyParts(key))
    case Some(path) => path
    case None => OTHER_PATH(template, KeyParts(key))
  }

  function ItemFor(template: string, selected: map<string, Json>, key: string): PatchItem
    requires key in selected
  {
    PatchItem(PathFor(template, key), KeyParts(key), Some(selected[key]))
  }

  /** The keys of a map, each once, in some order. */
  predicate Enumerates(keys: seq<string>, m: map<string, Json>) {
    (forall i | 0 <= i < |keys| :: keys[i] in m) &&
    (forall i, j | 0 <= i < j < |keys| :: keys[i] != keys[j]) &&
    (forall key | key in m :: key in keys)
  }

  predicate SelectFails(op: PatchOperation, jsonv: Json)
  {
    op.select.Some? &&
    var selected := op.select.value(jsonv);
    selected.Err? || exists key | key in selected.value :: Contains(PathFor(op.path, key), GUARD)
  }

  /** The items of one operation, keyed in some order of the selected map. */
  predicate ItemsOf(op: PatchOperation, jsonv: Json, items: seq<PatchItem>, keys: seq<string>)
  {
    match op.select
    case None => items == [PatchItem(op.path, [], None)] && keys == []
    case Some(select) =>
      select(jsonv).Ok? && Enumerates(keys, select(jsonv).value) && |items| == |keys| &&
      forall i | 0 <= i < |items| :: items[i] == ItemFor(op.path, select(jsonv).value, keys[i])
  }

  /** The select part: one item per entry, in the order the map yields them, or an error if
      some path carries the bad-index mark. */
  method SelectItems(op: PatchOperation, jsonv: Json) returns (r: Result<seq<PatchItem>>, keys: seq<string>)
    ensures r.Err? <==> SelectFails(op, jsonv)
    ensures r.Ok? ==> ItemsOf(op, jsonv, r.value, keys)
  {
    keys := [];
    if op.select.None? { return Ok([PatchItem(op.path, [], None)]), []; }
    var selected := op.select.value(jsonv);
    if selected.Err? { return Err, []; }
    var m := selected.value;
    var items: seq<PatchItem>, remaining := [], m.Keys;
    while remaining != {}
      invariant Visited(keys, remaining, m) && |items| == |keys|
      invariant forall i | 0 <= i < |items| ::
                  items[i] == ItemFor(op.path, m, keys[i]) && !Contains(items[i].path, GUARD)
      decreases remaining
    {
      var key :| key in remaining;
      var item := ItemFor(op.path, m, key);
      if Contains(item.path, GUARD) { return Err, []; }
      VisitOne(keys, remaining, m, key);
      items, keys, remaining := items + [item], keys + [key], remaining - {key};
    }
    forall key | key in m ensures !Contains(PathFor(op.path, key), GUARD) {
      var i :| 0 <= i < |keys| && keys[i] == key;
      assert items[i].path == PathFor(op.path, key);
    }
    r := Ok(items);
  }

  /** A partial enumeration and the keys it still has to visit. */
  predicate Visited(keys: seq<string>, remaining: set<string>, m: map<string, Json>) {
    remaining <= m.Keys &&
    (forall i | 0 <= i < |keys| :: keys[i] in m && keys[i] !in remaining) &&
    (forall i, j | 0 <= i < j < |keys| :: keys[i] != keys[j]) &&
    (forall key | key in m :: key in keys || key in remaining)
  }

  lemma VisitOne(keys: seq<string>, remaining: set<string>, m: map<string, Json>, key: string)
    requires Visited(keys, remaining, m) && key in remaining
    ensures Visited(keys + [key], remaining - {key}, m)
  {}

  function EntryFor(op: PatchOperation, jsonv: Json, item: PatchItem): Result<Entry> {
    match op.value(jsonv, item.parts, item.item)
    case Ok(v) => Ok(Entry(op.op, item.path, v))
    case Err => Err
  }

  predicate GroupOf(op: PatchOperation, jsonv: Json, items: seq<PatchItem>, group: seq<Entry>) {
    |group| == |items| && forall i | 0 <= i < |items| :: EntryFor(op, jsonv, items[i]) == Ok(group[i])
  }

  /** Rendering the value fails for some item of an operation whose select succeeds. */
  predicate ValueFails(op: PatchOperation, jsonv: Json)
  {
    match op.select
    case None => EntryFor(op, jsonv, PatchItem(op.path, [], None)).Err?
    case Some(select) =>
      select(jsonv).Ok? &&
      exists key | key in select(jsonv).value :: EntryFor(op, jsonv, ItemFor(op.path, select(jsonv).value, key)).Err?
  }

  predicate Fails(op: PatchOperation, jsonv: Json)
  {
    SelectFails(op, jsonv) || ValueFails(op, jsonv)
  }

  lemma ValueFailsForSomeItem(op: PatchOperation, jsonv: Json, items: seq<PatchItem>, keys: seq<string>)
    requires ItemsOf(op, jsonv, items, keys)
    ensures ValueFails(op, jsonv) <==> exists i | 0 <= i < |items| :: EntryFor(op, jsonv, items[i]).Err?
  {
    if op.select.None? {
      assert items[0] == PatchItem(op.path, [], None);
    } else {
      var m := op.select.value(jsonv).value;
      if ValueFails(op, jsonv) {
        var key :| key in m && EntryFor(op, jsonv, ItemFor(op.path, m, key)).Err?;
        var i :| 0 <= i < |keys| && keys[i] == key;
        assert EntryFor(op, jsonv, items[i]).Err?;
      }
      forall i | 0 <= i < |items| && EntryFor(op, jsonv, items[i]).Err? ensures ValueFails(op, jsonv) {
        assert keys[i] in m && items[i] == ItemFor(op.path, m, keys[i]);
      }
    }
  }

  function Concat(groups: seq<seq<Entry>>): seq<Entry> {
    if groups == [] then [] else Concat(groups[..|groups| - 1]) + groups[|groups| - 1]
  }

  /** What a successful patch is made of: per operation, its items and their entries. */
  datatype Group = Group(items: seq<PatchItem>, keys: seq<string>, entries: seq<Entry>)

  predicate GroupFor(op: PatchOperation, jsonv: Json, g: Group)
  {
    ItemsOf(op, jsonv, g.items, g.keys) && GroupOf(op, jsonv, g.items, g.entries)
  }

  /** The builder and its operation index. */
  class PatchText {
    var text: string
    var operationIndex: nat
    ghost var entries: seq<Entry>

    ghost predicate Valid()
      reads this
    {
      operationIndex == |entries| && text == "[" + JoinEntries(entries)
    }

    constructor ()
      ensures Valid() && entries == []
    {
      text, operationIndex, entries := "[", 0, [];
    }

    method Append(e: Entry)
      requires Valid()
      modifies this
      ensures Valid() && entries == old(entries) + [e]
    {
      if operationIndex > 0 {
        text := text + ",";
      }
      text := text + EntryText(e);
      operationIndex := operationIndex + 1;
      entries := entries + [e];
      JoinOneMore(old(entries), e);
    }

    method AppendItems(op: PatchOperation, jsonv: Json, items: seq<PatchItem>) returns (ok: bool, group: seq<Entry>)
      requires Valid()
      modifies this
      ensures ok <==> forall i | 0 <= i < |items| :: EntryFor(op, jsonv, items[i]).Ok?
      ensures ok ==> Valid() && GroupOf(op, jsonv, items, group) && entries == old(entries) + group
    {
      group := [];
      for i := 0 to |items|
        invariant Valid() && GroupOf(op, jsonv, items[..i], group) && entries == old(entries) + group
      {
        var e := EntryFor(op, jsonv, items[i]);
        if e.Err? { return false, group; }
        Append(e.value);
        group := group + [e.value];
        assert items[..i + 1] == items[..i] + [items[i]];
      }
      assert items[..|items|] == items;
      ok := true;
    }

    method AppendOperation(op: PatchOperation, jsonv: Json) returns (ok: bool, g: Group)
      requires Valid()
      modifies this
      ensures ok <==> !Fails(op, jsonv)
      ensures ok ==> Valid() && GroupFor(op, jsonv, g) && entries == old(entries) + g.entries
    {
      var items, keys := SelectItems(op, jsonv);
      if items.Err? { return false, Group([], [], []); }
      ValueFailsForSomeItem(op, jsonv, items.value, keys);
      var group;
      ok, group := AppendItems(op, jsonv, items.value);
      g := Group(items.value, keys, group);
    }
  }

  function EntriesOf(groups: seq<Group>): seq<seq<Entry>> {
    seq(|groups|, i requires 0 <= i < |groups| => groups[i].entries)
  }

  /** The first operations succeeded, each with its group. */
  predicate Succeeded(ops: seq<PatchOperation>, jsonv: Json, groups: seq<Group>)
  {
    |groups| <= |ops| && forall i | 0 <= i < |groups| :: GroupFor(ops[i], jsonv, groups[i]) && !Fails(ops[i], jsonv)
  }

  lemma SucceededSnoc(ops: seq<PatchOperation>, jsonv: Json, groups: seq<Group>, g: Group)
    requires Succeeded(ops, jsonv, groups) && |groups| < |ops|
    requires GroupFor(ops[|groups|], jsonv, g) && !Fails(ops[|groups|], jsonv)
    ensures Succeeded(ops, jsonv, groups + [g])
  {}

  /** The entries of an operation: one for each item, with the operation's word, the item's path, and
      the value rendered for the item and its key parts. */
  predicate Tells(op: PatchOperation, jsonv: Json, g: Group) {
    |g.entries| == |g.items| &&
    forall j | 0 <= j < |g.items| ::
      g.entries[j].op == op.op && g.entries[j].path == g.items[j].path
      && op.value(jsonv, g.items[j].parts, g.items[j].item) == Ok(g.entries[j].value)
  }

  lemma GroupTells(op: PatchOperation, jsonv: Json, g: Group)
    requires GroupFor(op, jsonv, g)
    ensures Tells(op, jsonv, g)
  {
    forall j | 0 <= j < |g.items|
      ensures g.entries[j].op == op.op && g.entries[j].path == g.items[j].path
              && op.value(jsonv, g.items[j].parts, g.items[j].item) == Ok(g.entries[j].value)
    {
      assert EntryFor(op, jsonv, g.items[j]) == Ok(g.entries[j]);
    }
  }

  /** An operation without a select has one entry, at the path as it is written; the value template
      sees no key parts and no item, and the operation fails exactly if that template does. */
  lemma WithoutSelect(op: PatchOperation, jsonv: Json, g: Group)
    requires op.select.None?
    ensures Fails(op, jsonv) <==> op.value(jsonv, [], None).Err?
    ensures GroupFor(op, jsonv, g) ==>
              |g.entries| == 1 && g.entries[0].op == op.op && g.entries[0].path == op.path
              && op.value(jsonv, [], None) == Ok(g.entries[0].value)
  {
    if GroupFor(op, jsonv, g) { assert EntryFor(op, jsonv, g.items[0]) == Ok(g.entries[0]); }
  }

  /** An operation with a select fails exactly if the select does, or if for some selected key the path
      holds the bad-index mark or the value cannot be rendered. */
  lemma WithSelect(op: PatchOperation, jsonv: Json, m: map<string, Json>)
    requires op.select.Some?
    ensures op.select.value(jsonv).Err? ==> Fails(op, jsonv)
    ensures op.select.value(jsonv) == Ok(m) ==>
              (Fails(op, jsonv) <==>
                 exists key | key in m ::
                   Contains(PathFor(op.path, key), "(BADINDEX)")
                   || op.value(jsonv, KeyParts(key), Some(m[key])).Err?)
  {
    if op.select.value(jsonv) == Ok(m) {
      forall key | key in m
        ensures EntryFor(op, jsonv, ItemFor(op.path, m, key)).Err?
                <==> op.value(jsonv, KeyParts(key), Some(m[key])).Err?
      {}
    }
  }

  /** calculatePatch up to its decoding: the patch text lists, operation by operation, one entry
      per selected item; nothing is produced exactly when some operation fails. */
  method CalculatePatchText(ops: seq<PatchOperation>, jsonv: Json) returns (r: Result<string>, groups: seq<Group>)
    ensures r.Ok? ==> |groups| == |ops| && Succeeded(ops, jsonv, groups)
                      && r.value == "[" + JoinEntries(Concat(EntriesOf(groups))) + "]"
    ensures r.Ok? ==> forall i | 0 <= i < |ops| :: Tells(ops[i], jsonv, groups[i])
    ensures r.Ok? && AllReadable(Concat(EntriesOf(groups))) ==>
              ReadPatch(r.value) == Some(OperationsOf(Concat(EntriesOf(groups))))
    ensures r.Err? <==> exists i | 0 <= i < |ops| :: Fails(ops[i], jsonv)
  {
    var b := new PatchText();
    groups := [];
    for i := 0 to |ops|
      invariant b.Valid() && fresh(b) && |groups| == i && b.entries == Concat(EntriesOf(groups))
      invariant Succeeded(ops, jsonv, groups)
    {
      var ok, g := b.AppendOperation(ops[i], jsonv);
      if !ok { return Err, []; }
      EntriesSnoc(groups, g);
      SucceededSnoc(ops, jsonv, groups, g);
      groups := groups + [g];
    }
    r := Ok(b.text + "]");
    if AllReadable(b.entries) { PatchReads(b.entries); }
    forall i | 0 <= i < |ops| ensures Tells(ops[i], jsonv, groups[i]) { GroupTells(ops[i], jsonv, groups[i]); }
  }

  lemma EntriesSnoc(groups: seq<Group>, g: Group)
    ensures Concat(EntriesOf(groups + [g])) == Concat(EntriesOf(groups)) + g.entries
  {
    assert EntriesOf(groups + [g])[..|groups|] == EntriesOf(groups);
  }

  /** Every entry of a group whose template mirrors its select carries a JSON Pointer to the item
      its value was rendered for, and the value was rendered with that item and the names of its
      match, one key part for each. */
  lemma GroupAddressesItems(isPrint: char -> bool, picks: seq<Pick>, op: PatchOperation, jsonv: Json, g: Group, i: nat)
    returns (m: Match)
    requires AllGood(picks) && WildCount(picks) <= MAX_PARTS && IsDocument(jsonv)
    requires forall m | m in Matches(ToSegments(picks), Null, jsonv) :: GoodKeys(isPrint, m.keys)
    requires op.select.Some? && op.path == Mirror(picks)
    requires op.select.value(jsonv) == Ok(SelectMap(isPrint, Build(ToSegments(picks)), Null, jsonv))
    requires GroupFor(op, jsonv, g) && i < |g.entries|
    ensures m in Matches(ToSegments(picks), Null, jsonv)
    ensures i < |g.items| && g.items[i].item == Some(m.value)
    ensures Resolve(jsonv, g.entries[i].path) == Some(m.value)
    ensures |g.items[i].parts| == |Flatten(m.keys)|
            && forall k | 0 <= k < |Flatten(m.keys)| :: Show(g.items[i].parts[k]) == Flatten(m.keys)[k]
    ensures op.value(jsonv, g.items[i].parts, g.items[i].item) == Ok(g.entries[i].value)
  {
    var segments := ToSegments(picks);
    var vs, key := SelectMap(isPrint, Build(segments), Null, jsonv), g.keys[i];
    var ms := Matches(segments, Null, jsonv);
    assert g.items[i] == ItemFor(op.path, vs, key);
    assert EntryFor(op, jsonv, g.items[i]) == Ok(g.entries[i]);
    SelectMapStores(isPrint, segments, Null, jsonv);
    var j :| 0 <= j < |ms| && SelectKey(isPrint, ms[j].keys) == key && ms[j].value == vs[key];
    m := ms[j];
    EveryEntryIsAddressed(isPrint, picks, Null, jsonv, key);
    PartsShowNames(isPrint, m.keys);
  }
}
