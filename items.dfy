/** The item endpoints of app/api/v1/endpoints/items.py. Storage is a
    placeholder in the source: every handler builds its answer from its
    arguments and the current user. */
module Items {
  import opened Wrappers
  import opened Text
  import opened Schemas

  const UpdatedAt: string := "2024-01-01T12:00:00Z"

  /** The `limit` query bounds; `skip` must be non-negative. */
  const MaxLimit: int := 1000

  /** The two sample items `read_items` starts from. */
  function MockItems(ownerId: int): (items: seq<Item>)
    ensures |items| == 2
    ensures forall i :: 0 <= i < |items| ==> items[i].id == i + 1 && items[i].ownerId == ownerId
  {
    [Item(1, "Sample Item 1", Some("This is a sample item"), ownerId, PlaceholderCreatedAt, PlaceholderCreatedAt),
     Item(2, "Sample Item 2", Some("This is another sample item"), ownerId, PlaceholderCreatedAt, PlaceholderCreatedAt)]
  }

  /** `search.lower() in item.title.lower()`. */
  predicate Matches(item: Item, term: string) {
    Contains(Lower(item.title), Lower(term))
  }

  /** The list comprehension keeping the items whose title matches `term`. */
  function FilterByTitle(items: seq<Item>, term: string): (r: seq<Item>)
    ensures |r| <= |items|
    ensures forall it :: it in r ==> it in items && Matches(it, term)
    ensures forall it :: it in items && Matches(it, term) ==> it in r
    decreases |items|
  {
    if items == [] then []
    else (if Matches(items[0], term) then [items[0]] else []) + FilterByTitle(items[1..], term)
  }

  /** Filtering keeps the items' relative order: it distributes over concatenation. */
  lemma {:induction false} FilterAppend(a: seq<Item>, b: seq<Item>, term: string)
    ensures FilterByTitle(a + b, term) == FilterByTitle(a, term) + FilterByTitle(b, term)
    decreases |a|
  {
    if a == [] {
      assert a + b == b;
    } else {
      assert (a + b)[1..] == a[1..] + b;
      FilterAppend(a[1..], b, term);
    }
  }

  /** `if search:` filters only on a non-empty term. */
  function Search(items: seq<Item>, search: Option<string>): (r: seq<Item>)
    ensures search.None? || search.value == "" ==> r == items
    ensures search.Some? && search.value != "" ==> r == FilterByTitle(items, search.value)
  {
    if search.Some? && search.value != "" then FilterByTitle(items, search.value) else items
  }

  /** `items[skip : skip + limit]` for `skip >= 0` and `limit >= 1`. */
  function Page(items: seq<Item>, skip: int, limit: int): (r: seq<Item>)
    requires 0 <= skip && 1 <= limit
    ensures |r| == if skip >= |items| then 0 else Min(limit, |items| - skip)
    ensures forall i :: 0 <= i < |r| ==> r[i] == items[skip + i]
  {
    if skip >= |items| then [] else items[skip .. Min(skip + limit, |items|)]
  }

  function Min(a: int, b: int): int {
    if a < b then a else b
  }

  /** `read_items`: the sample items, filtered by `search`, then paginated. */
  function ReadItems(skip: int, limit: int, search: Option<string>, user: User): (r: seq<Item>)
    requires 0 <= skip && 1 <= limit <= MaxLimit
    ensures |r| <= limit && |r| <= if skip >= 2 then 0 else 2 - skip
    ensures forall it :: it in r ==> it.ownerId == user.id
    ensures search.Some? && search.value != "" ==> forall it :: it in r ==> Matches(it, search.value)
    ensures var found := Search(MockItems(user.id), search);
            |r| == (if skip >= |found| then 0 else Min(limit, |found| - skip))
    ensures var found := Search(MockItems(user.id), search);
            forall i :: 0 <= i < |r| ==> skip + i < |found| && r[i] == found[skip + i]
  {
    var found := Search(MockItems(user.id), search);
    var r := Page(found, skip, limit);
    assert forall it :: it in r ==> it in found by {
      forall it | it in r ensures it in found {
        var i :| 0 <= i < |r| && r[i] == it;
        assert found[skip + i] == it;
      }
    }
    r
  }

  /** Without a search term, the first page holds both sample items. */
  lemma FirstPageUnfiltered(user: User, limit: int)
    requires 2 <= limit <= MaxLimit
    ensures ReadItems(0, limit, None, user) == MockItems(user.id)
    ensures ReadItems(0, limit, Some(""), user) == MockItems(user.id)
  {
    assert MockItems(user.id)[0..2] == MockItems(user.id);
  }

  /** A search term matches the titles regardless of letter case. */
  lemma {:induction false} SearchIgnoresCase(items: seq<Item>, term: string)
    ensures FilterByTitle(items, term) == FilterByTitle(items, Lower(term))
    decreases |items|
  {
    LowerIdempotent(term);
    if items != [] {
      SearchIgnoresCase(items[1..], term);
    }
  }

  /** Searching for "ITEM 2" finds the second sample item and only it. */
  lemma SearchSecondSample(user: User)
    ensures ReadItems(0, 100, Some("ITEM 2"), user) == [MockItems(user.id)[1]]
  {
    var items := MockItems(user.id);
    SampleMatches(user);
    assert FilterByTitle(items[1..][1..], "ITEM 2") == [];
    assert FilterByTitle(items[1..], "ITEM 2") == [items[1]];
    assert FilterByTitle(items, "ITEM 2") == [items[1]];
  }

  lemma SampleMatches(user: User)
    ensures !Matches(MockItems(user.id)[0], "ITEM 2")
    ensures Matches(MockItems(user.id)[1], "ITEM 2")
  {
    LowerSamples();
    SampleTitles();
  }

  lemma SampleTitles()
    ensures Contains("sample item 2", "item 2")
    ensures !Contains("sample item 1", "item 2")
  {
    SecondTitleContains();
    FirstTitleLacks();
  }

  lemma SecondTitleContains()
    ensures Contains("sample item 2", "item 2")
  {
    assert OccursAt("sample item 2", "item 2", 7);
    ContainsAt("sample item 2", "item 2");
  }

  lemma FirstTitleLacks()
    ensures !Contains("sample item 1", "item 2")
  {
    var title := "sample item 1";
    assert "item 2"[5] == '2';
    assert '2' !in title by {
      forall k | 0 <= k < |title| ensures title[k] != '2' {
      }
    }
    MissingCharNotContained(title, "item 2", '2');
  }

  lemma LowerSamples()
    ensures Lower("ITEM 2") == "item 2"
    ensures Lower("Sample Item 1") == "sample item 1"
    ensures Lower("Sample Item 2") == "sample item 2"
  {
  }

  /** `create_item`: the payload with placeholder id 999, owned by the caller. */
  function CreateItem(data: ItemCreate, user: User): (r: Item)
    ensures r.id == 999 && r.ownerId == user.id
    ensures r.title == data.title && r.description == data.description
    ensures r.createdAt == r.updatedAt == PlaceholderCreatedAt
  {
    Item(999, data.title, data.description, user.id, PlaceholderCreatedAt, PlaceholderCreatedAt)
  }

  const ItemTitlePrefix: string := "Item "

  /** `read_item`: a made-up item carrying the requested id, owned by the caller. */
  function ReadItem(itemId: int, user: User): (r: Item)
    ensures r.id == itemId && r.ownerId == user.id
    ensures StartsWith(r.title, ItemTitlePrefix) && ParseInt(r.title[|ItemTitlePrefix|..]) == itemId
  {
    var r := Item(itemId, ItemTitlePrefix + IntToString(itemId), Some("Description for item " + IntToString(itemId)),
                  user.id, PlaceholderCreatedAt, PlaceholderCreatedAt);
    assert r.title[|ItemTitlePrefix|..] == IntToString(itemId);
    ParseIntToString(itemId);
    r
  }

  const UpdatedTitlePrefix: string := "Updated Item "

  /** `update_item`: the given title and description when truthy, otherwise
      placeholders naming the id (an empty string falls back too). */
  function UpdateItem(itemId: int, data: ItemUpdate, user: User): (r: Item)
    ensures r.id == itemId && r.ownerId == user.id && r.updatedAt == UpdatedAt
    ensures r.description.Some?
    ensures data.title.Some? && data.title.value != "" ==> r.title == data.title.value
    ensures data.title.None? || data.title.value == "" ==>
              StartsWith(r.title, UpdatedTitlePrefix) && ParseInt(r.title[|UpdatedTitlePrefix|..]) == itemId
    ensures data.description.Some? && data.description.value != "" ==> r.description == data.description
    ensures data.description.None? || data.description.value == "" ==>
              r.description == Some("Updated description for item " + IntToString(itemId))
  {
    var fallback := UpdatedTitlePrefix + IntToString(itemId);
    assert fallback[|UpdatedTitlePrefix|..] == IntToString(itemId);
    ParseIntToString(itemId);
    Item(itemId, OrElse(data.title, fallback),
         Some(OrElse(data.description, "Updated description for item " + IntToString(itemId))),
         user.id, PlaceholderCreatedAt, UpdatedAt)
  }
}
