/**
 * The category half of database.py: `create_category`, `get_categories`,
 * `get_category_by_name` and `delete_category`.
 */
module Registry {
  import opened Wrappers
  import opened Seqs
  import opened Sorting
  import opened Text
  import opened Store

  /** Chat `c` already has a category called exactly `name` (the UNIQUE key; BINARY collation, so case matters). */
  predicate NameTaken(cats: seq<Category>, c: int, name: string) {
    exists i :: 0 <= i < |cats| && cats[i].chatId == c && cats[i].name == name
  }

  /** The store after a `create_category` call, and the id it returned (None on a UNIQUE conflict). */
  datatype Created = Created(store: Store, id: Option<int>)

  /**
   * `create_category`: an INSERT guarded by UNIQUE(chat_id, name). A conflict
   * raises IntegrityError, which the function turns into None with nothing written.
   */
  function CreateCategory(st: Store, c: int, name: string, description: Option<string>, now: int): (r: Created)
    ensures r.id.None? <==> NameTaken(st.cats, c, name)
    ensures r.id.None? ==> r.store == st
    ensures r.id.Some? ==> r.store.cats == st.cats + [Category(r.id.value, c, name, description, now)]
    ensures r.store.txs == st.txs && r.store.nextTxId == st.nextTxId
    ensures Valid(st) ==> Valid(r.store)
    ensures Valid(st) && r.id.Some? ==> forall k :: 0 <= k < |st.cats| ==> st.cats[k].id < r.id.value
  {
    if NameTaken(st.cats, c, name) then Created(st, None)
    else
      var cat := Category(st.nextCatId, c, name, description, now);
      Created(Store(st.txs, st.cats + [cat], st.nextTxId, st.nextCatId + 1), Some(st.nextCatId))
  }

  /** `WHERE chat_id = c` on categories. */
  function CatInChat(c: int): Category -> bool {
    (x: Category) => x.chatId == c
  }

  /** `ORDER BY name` under the BINARY collation. */
  function NameLe(a: Category, b: Category): bool {
    StrLe(a.name, b.name)
  }

  lemma NameLeIsTotalPreorder()
    ensures TotalPreorder(NameLe)
  {
    forall a: Category, b: Category ensures NameLe(a, b) || NameLe(b, a) {
      StrLeTotal(a.name, b.name);
    }
    forall a: Category, b: Category, c: Category | NameLe(a, b) && NameLe(b, c) ensures NameLe(a, c) {
      StrLeTransitive(a.name, b.name, c.name);
    }
  }

  /** `get_categories`: exactly the categories of chat `c`, ordered by name. */
  function GetCategories(st: Store, c: int): (r: seq<Category>)
    ensures multiset(r) == multiset(Filter(st.cats, CatInChat(c)))
    ensures forall x :: x in r <==> x in st.cats && x.chatId == c
    ensures forall i, j :: 0 <= i < j < |r| ==> StrLe(r[i].name, r[j].name)
  {
    NameLeIsTotalPreorder();
    var mine := Filter(st.cats, CatInChat(c));
    FilterMembers(st.cats, CatInChat(c));
    var r := Sort(mine, NameLe);
    assert forall x :: x in r <==> x in mine by {
      forall x ensures x in r <==> x in mine {
        assert x in r <==> x in multiset(r);
        assert x in mine <==> x in multiset(mine);
      }
    }
    r
  }

  /** `LOWER(name) = LOWER(n)` for chat `c`. */
  function MatchesName(c: int, n: string): Category -> bool {
    (x: Category) => x.chatId == c && SqlLower(x.name) == SqlLower(n)
  }

  /**
   * `get_category_by_name`: a category of chat `c` whose name equals `n` up to
   * SQLite's ASCII-only case folding, or None when there is none. Which of several
   * matches `fetchone` returns is not fixed by the query; the model takes the first in table order.
   */
  function GetCategoryByName(st: Store, c: int, n: string): (r: Option<Category>)
    ensures r.Some? ==> r.value in st.cats && r.value.chatId == c && SqlLower(r.value.name) == SqlLower(n)
    ensures r.None? <==> forall x :: x in st.cats && x.chatId == c ==> SqlLower(x.name) != SqlLower(n)
  {
    var found := Filter(st.cats, MatchesName(c, n));
    FilterMembers(st.cats, MatchesName(c, n));
    if |found| == 0 then None
    else
      assert found[0] in found;
      Some(found[0])
  }

  /** The rows `delete_category(c, id)` keeps: all but the category `id` of chat `c`. */
  function KeptBy(c: int, id: int): Category -> bool {
    (x: Category) => !(x.id == id && x.chatId == c)
  }

  /** Table order of categories by id, and the UNIQUE(chat_id, name) relation between two rows. */
  function CatIdBefore(a: Category, b: Category): bool {
    a.id < b.id
  }

  function DistinctKeys(a: Category, b: Category): bool {
    a.chatId == b.chatId ==> a.name != b.name
  }

  /**
   * `delete_category`: deletes the category with this id only if it belongs to chat
   * `c`. Transactions are not touched, so rows that referred to it keep the dangling id.
   */
  function DeleteCategory(st: Store, c: int, id: int): (r: Store)
    ensures r.txs == st.txs
    ensures forall x :: x in r.cats <==> x in st.cats && !(x.id == id && x.chatId == c)
    ensures r.nextTxId == st.nextTxId && r.nextCatId == st.nextCatId
    ensures Valid(st) ==> Valid(r)
  {
    var kept := Filter(st.cats, KeptBy(c, id));
    FilterMembers(st.cats, KeptBy(c, id));
    var r := Store(st.txs, kept, st.nextTxId, st.nextCatId);
    assert Valid(st) ==> Valid(r) by {
      if Valid(st) {
        FilterPairwise(st.cats, KeptBy(c, id), CatIdBefore);
        FilterPairwise(st.cats, KeptBy(c, id), DistinctKeys);
        forall i | 0 <= i < |kept| ensures 1 <= kept[i].id < st.nextCatId {
          assert kept[i] in st.cats;
        }
      }
    }
    r
  }

  /** Under UNIQUE(chat_id, name) two rows of one chat with one name are the same row. */
  lemma SameKeySameRow(st: Store, x: Category, y: Category)
    requires Valid(st)
    requires x in st.cats && y in st.cats && x.chatId == y.chatId && x.name == y.name
    ensures x == y
  {
    var p :| 0 <= p < |st.cats| && st.cats[p] == x;
    var q :| 0 <= q < |st.cats| && st.cats[q] == y;
    assert !(p < q) && !(q < p);
  }

  /** Under UNIQUE(chat_id, name) the listing of a chat never shows a name twice, so its names strictly increase. */
  lemma ListedNamesUnique(st: Store, c: int)
    requires Valid(st)
    ensures forall i, j :: 0 <= i < j < |GetCategories(st, c)| ==> GetCategories(st, c)[i].name != GetCategories(st, c)[j].name
  {
    var r := GetCategories(st, c);
    var mine := Filter(st.cats, CatInChat(c));
    FilterPairwise(st.cats, CatInChat(c), CatIdBefore);
    assert forall i, j :: 0 <= i < j < |mine| ==> mine[i] != mine[j] by {
      forall i, j | 0 <= i < j < |mine| ensures mine[i] != mine[j] {
        assert CatIdBefore(mine[i], mine[j]);
      }
    }
    NoRepeatsCount(mine);
    forall i, j | 0 <= i < j < |r| ensures r[i].name != r[j].name {
      if r[i].name == r[j].name {
        assert r[i] in r && r[j] in r;
        SameKeySameRow(st, r[i], r[j]);
        RepeatCount(r, i, j);
        assert false;
      }
    }
  }

  /**
   * Creating the same category twice: the first call returns a fresh id, the second
   * returns None and changes nothing, and the chat's listing holds exactly one row with that name.
   */
  lemma CreateTwice(st: Store, c: int, name: string, d1: Option<string>, d2: Option<string>, t1: int, t2: int)
    requires Valid(st)
    requires !NameTaken(st.cats, c, name)
    ensures CreateCategory(st, c, name, d1, t1).id == Some(st.nextCatId)
    ensures
      var s1 := CreateCategory(st, c, name, d1, t1).store;
      && CreateCategory(s1, c, name, d2, t2) == Created(s1, None)
      && (exists i :: 0 <= i < |GetCategories(s1, c)| && GetCategories(s1, c)[i].name == name)
      && (forall i, j :: 0 <= i < j < |GetCategories(s1, c)| ==> GetCategories(s1, c)[i].name != GetCategories(s1, c)[j].name)
  {
    var s1 := CreateCategory(st, c, name, d1, t1).store;
    var cat := s1.cats[|st.cats|];
    assert NameTaken(s1.cats, c, name) by {
      assert s1.cats[|st.cats|].chatId == c && s1.cats[|st.cats|].name == name;
    }
    assert cat in s1.cats;
    var l := GetCategories(s1, c);
    assert cat in l;
    ListedNamesUnique(s1, c);
  }

  /** A category just created is found again by its name. */
  lemma CreateThenFind(st: Store, c: int, name: string, d: Option<string>, now: int)
    requires !NameTaken(st.cats, c, name)
    ensures
      var r := CreateCategory(st, c, name, d, now);
      && GetCategoryByName(r.store, c, name).Some?
      && GetCategoryByName(r.store, c, name).value.chatId == c
  {
    var r := CreateCategory(st, c, name, d, now);
    assert r.store.cats[|st.cats|] in r.store.cats;
  }

  /**
   * After `delete_category(c, id)` chat `c` has no category with that id, the
   * transactions are the same rows as before, and every other chat's listing is unchanged.
   */
  lemma DeleteCategoryEffect(st: Store, c: int, id: int, d: int)
    ensures forall x :: x in DeleteCategory(st, c, id).cats && x.chatId == c ==> x.id != id
    ensures DeleteCategory(st, c, id).txs == st.txs
    ensures d != c ==> GetCategories(DeleteCategory(st, c, id), d) == GetCategories(st, d)
  {
    var r := DeleteCategory(st, c, id);
    if d != c {
      FilterFilter(st.cats, KeptBy(c, id), CatInChat(d));
    }
  }
}
