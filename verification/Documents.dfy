/** The tree structure of JSON values. */
module Documents {
  import opened Values
  import opened Decimals

  /** What visitAll walks: array elements under their index, object members under their key. */
  function Children(v: Json): (kids: seq<Member>)
    ensures forall i | 0 <= i < |kids| :: kids[i].value < v
  {
    match v
    case Array(elems) => seq(|elems|, i requires 0 <= i < |elems| => Member(Digits(i), elems[i]))
    case Object(members) => members
    case _ => []
  }

  predicate DistinctKeys(members: seq<Member>) {
    forall i, j | 0 <= i < j < |members| :: members[i].key != members[j].key
  }

  /** Every object in the tree is a Go map, so no key occurs twice, and every array a Go slice;
      a strict tree has no Undefined anywhere in it. */
  predicate IsTree(v: Json, strict: bool)
    decreases v
  {
    (v.Object? ==> DistinctKeys(v.members)) && (v.Array? ==> |v.elems| <= MAX_INT64) &&
    (strict ==> !v.Undefined?) &&
    forall i | 0 <= i < |Children(v)| :: IsTree(Children(v)[i].value, strict)
  }

  predicate IsGoValue(v: Json) { IsTree(v, false) }

  /** What json.Unmarshal produces. */
  predicate IsDocument(v: Json) { IsTree(v, true) }

  lemma TreeIsGoValue(v: Json, strict: bool)
    requires IsTree(v, strict)
    ensures IsGoValue(v)
    decreases v
  {
    forall i | 0 <= i < |Children(v)| ensures IsTree(Children(v)[i].value, false) {
      TreeIsGoValue(Children(v)[i].value, strict);
    }
  }

  lemma ChildKeysDistinct(v: Json)
    requires IsGoValue(v)
    ensures DistinctKeys(Children(v))
  {
    if v.Array? {
      forall i, j | 0 <= i < j < |v.elems| ensures Children(v)[i].key != Children(v)[j].key {
        if Digits(i) == Digits(j) { DigitsInjective(i, j); }
      }
    }
  }

  /** The map lookup o[k]. */
  function Find(members: seq<Member>, key: string): (r: Option<Json>)
    ensures r.None? <==> forall i | 0 <= i < |members| :: members[i].key != key
    ensures r.Some? ==> exists i | 0 <= i < |members| :: members[i] == Member(key, r.value)
  {
    if members == [] then None
    else if members[0].key == key then
      assert members[0] == Member(key, members[0].value);
      Some(members[0].value)
    else
      var r := Find(members[1..], key);
      assert r.Some? ==> exists i | 0 <= i < |members| :: members[i] == Member(key, r.value) by {
        if r.Some? {
          var i :| 0 <= i < |members[1..]| && members[1..][i] == Member(key, r.value);
          assert members[i + 1] == Member(key, r.value);
        }
      }
      assert forall i | 1 <= i < |members| :: members[i] == members[1..][i - 1];
      r
  }

  lemma FindMember(members: seq<Member>, i: nat)
    requires DistinctKeys(members) && i < |members|
    ensures Find(members, members[i].key) == Some(members[i].value)
  {
    var r := Find(members, members[i].key);
    var j :| 0 <= j < |members| && members[j] == Member(members[i].key, r.value);
    assert !(i < j) && !(j < i);
  }
}
