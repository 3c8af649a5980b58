/** The link list: an ordered sequence of schema-free link documents,
    addressed by position. Every handler loads the stored list, changes a
    copy and saves it; on an error it returns before saving. The store is
    `None` while no links file exists. */
module Links {
  import opened Optional

  /** The JSON body of a reply. */
  datatype Body<D> =
    | List(links: seq<D>)
    | Status(status: string)
    | StatusLink(status: string, link: D)
    | Error(error: string)

  /** An HTTP status code, the reply body, and the store after the request. */
  datatype Reply<D> = Reply(code: int, body: Body<D>, store: Option<seq<D>>)

  /** `load_links`: the stored list, or the empty list when nothing is stored. */
  function LoadLinks<D>(store: Option<seq<D>>): (links: seq<D>)
    ensures store.None? ==> links == []
    ensures store.Some? ==> links == store.value
  {
    store.GetOr([])
  }

  predicate InRange<D>(links: seq<D>, index: int) {
    0 <= index < |links|
  }

  /** Exchange the elements at two positions; nothing else moves. */
  function Swap<D>(s: seq<D>, i: nat, j: nat): (r: seq<D>)
    requires i < |s| && j < |s|
    ensures |r| == |s| && r[i] == s[j] && r[j] == s[i]
    ensures forall k | 0 <= k < |s| && k != i && k != j :: r[k] == s[k]
    ensures multiset(r) == multiset(s)
  {
    s[i := s[j]][j := s[i]]
  }

  /** GET /links. */
  function GetLinks<D>(store: Option<seq<D>>): (r: Reply<D>)
    ensures r.code == 200 && r.store == store
    ensures store.None? ==> r.body == List([])
    ensures store.Some? ==> r.body == List(store.value)
  {
    Reply(200, List(LoadLinks(store)), store)
  }

  /** POST /links: append the request document. */
  function AddLink<D>(store: Option<seq<D>>, link: D): (r: Reply<D>)
    ensures r.code == 201 && r.body == StatusLink("success", link)
    ensures r.store.Some?
    ensures |r.store.value| == |LoadLinks(store)| + 1
    ensures r.store.value[..|LoadLinks(store)|] == LoadLinks(store)
    ensures r.store.value[|LoadLinks(store)|] == link
  {
    var links := LoadLinks(store);
    Reply(201, StatusLink("success", link), Some(links + [link]))
  }

  /** DELETE /links/<index>: pop the element at `index`. */
  function DeleteLink<D>(store: Option<seq<D>>, index: int): (r: Reply<D>)
    ensures r.code == 200 <==> InRange(LoadLinks(store), index)
    ensures r.code != 200 ==> r.code == 404 && r.body == Error("Index out of range") && r.store == store
    ensures r.code == 200 ==>
      var links := LoadLinks(store);
      && r.body == StatusLink("deleted", links[index])
      && r.store.Some?
      && |r.store.value| == |links| - 1
      && (forall k | 0 <= k < index :: r.store.value[k] == links[k])
      && (forall k | index <= k < |links| - 1 :: r.store.value[k] == links[k + 1])
      && multiset(r.store.value) + multiset{links[index]} == multiset(links)
  {
    var links := LoadLinks(store);
    if InRange(links, index) then
      assert links == links[..index] + [links[index]] + links[index + 1..];
      Reply(200, StatusLink("deleted", links[index]), Some(links[..index] + links[index + 1..]))
    else
      Reply(404, Error("Index out of range"), store)
  }

  /** PUT /links/<index>: replace the element at `index` wholesale. */
  function UpdateLink<D>(store: Option<seq<D>>, index: int, link: D): (r: Reply<D>)
    ensures r.code == 200 <==> InRange(LoadLinks(store), index)
    ensures r.code != 200 ==> r.code == 404 && r.body == Error("Index out of range") && r.store == store
    ensures r.code == 200 ==>
      var links := LoadLinks(store);
      && r.body == StatusLink("updated", link)
      && r.store.Some?
      && |r.store.value| == |links|
      && r.store.value[index] == link
      && (forall k | 0 <= k < |links| && k != index :: r.store.value[k] == links[k])
  {
    var links := LoadLinks(store);
    if InRange(links, index) then
      Reply(200, StatusLink("updated", link), Some(links[index := link]))
    else
      Reply(404, Error("Index out of range"), store)
  }

  /** Whether `direction` names a legal move of the element at an in-range `index`. */
  predicate CanMove<D>(links: seq<D>, index: int, direction: Option<string>) {
    || (direction == Some("up") && index > 0)
    || (direction == Some("down") && index < |links| - 1)
  }

  /** POST /links/<index>/move: swap with the neighbour above ("up") or
      below ("down"). The range check comes before the direction check. */
  function MoveLink<D>(store: Option<seq<D>>, index: int, direction: Option<string>): (r: Reply<D>)
    ensures r.code == 404 <==> !InRange(LoadLinks(store), index)
    ensures r.code == 400 <==> InRange(LoadLinks(store), index) && !CanMove(LoadLinks(store), index, direction)
    ensures r.code == 404 ==> r.body == Error("Index out of range")
    ensures r.code == 400 ==> r.body == Error("Cannot move in that direction")
    ensures r.code != 200 ==> r.code in {400, 404} && r.store == store
    ensures r.code == 200 ==>
      var links := LoadLinks(store);
      var other := if direction == Some("up") then index - 1 else index + 1;
      && r.body == Status("success")
      && 0 <= other < |links|
      && r.store.Some?
      && |r.store.value| == |links|
      && r.store.value[index] == links[other]
      && r.store.value[other] == links[index]
      && (forall k | 0 <= k < |links| && k != index && k != other :: r.store.value[k] == links[k])
      && multiset(r.store.value) == multiset(links)
  {
    var links := LoadLinks(store);
    if InRange(links, index) then
      if direction == Some("up") && index > 0 then
        Reply(200, Status("success"), Some(Swap(links, index, index - 1)))
      else if direction == Some("down") && index < |links| - 1 then
        Reply(200, Status("success"), Some(Swap(links, index, index + 1)))
      else
        Reply(400, Error("Cannot move in that direction"), store)
    else
      Reply(404, Error("Index out of range"), store)
  }

  /** Deleting the element just appended restores the list and returns that element. */
  lemma AddThenDeleteRestores<D>(store: Option<seq<D>>, link: D)
    ensures var r := DeleteLink(AddLink(store, link).store, |LoadLinks(store)|);
      r.code == 200 && r.body == StatusLink("deleted", link) && r.store == Some(LoadLinks(store))
  {
    var links := LoadLinks(store);
    var r := DeleteLink(AddLink(store, link).store, |links|);
    assert r.store.value == links;
  }

  /** Re-inserting the deleted element at its old position restores the list. */
  lemma DeleteThenInsertRestores<D>(store: Option<seq<D>>, index: int)
    requires InRange(LoadLinks(store), index)
    ensures var r := DeleteLink(store, index);
      r.store.value[..index] + [r.body.link] + r.store.value[index..] == LoadLinks(store)
  {
  }

  /** Writing back the old document undoes an update. */
  lemma UpdateThenRestore<D>(store: Option<seq<D>>, index: int, link: D)
    requires InRange(LoadLinks(store), index)
    ensures UpdateLink(UpdateLink(store, index, link).store, index, LoadLinks(store)[index]).store
            == Some(LoadLinks(store))
  {
    var links := LoadLinks(store);
    var back := UpdateLink(UpdateLink(store, index, link).store, index, links[index]).store.value;
    assert |back| == |links|;
    assert forall k | 0 <= k < |links| :: back[k] == links[k];
    assert back == links;
  }

  /** Moving an element up and then moving it back down restores the list. */
  lemma MoveUpThenDownRestores<D>(store: Option<seq<D>>, index: int)
    requires 0 < index < |LoadLinks(store)|
    ensures var up := MoveLink(store, index, Some("up"));
      up.code == 200 && MoveLink(up.store, index - 1, Some("down")).store == Some(LoadLinks(store))
  {
    var links := LoadLinks(store);
    var up := MoveLink(store, index, Some("up"));
    var back := MoveLink(up.store, index - 1, Some("down")).store.value;
    assert |back| == |links|;
    assert forall k | 0 <= k < |links| :: back[k] == links[k];
    assert back == links;
  }

  /** Neither end of the list can move past the boundary. */
  lemma MoveBoundariesRejected<D>(store: Option<seq<D>>)
    requires |LoadLinks(store)| > 0
    ensures MoveLink(store, 0, Some("up")).code == 400
    ensures MoveLink(store, |LoadLinks(store)| - 1, Some("down")).code == 400
    ensures MoveLink(store, |LoadLinks(store)|, Some("up")).code == 404
  {
  }

  lemma MoveExample()
    ensures MoveLink(Some(["A", "B", "C"]), 1, Some("up")).store == Some(["B", "A", "C"])
  {
    var r := MoveLink(Some(["A", "B", "C"]), 1, Some("up")).store.value;
    assert r == ["B", "A", "C"];
  }
}
