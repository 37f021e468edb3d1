/**
 * The store behind `repository/DeviceRepository.java`: the `JpaRepository`
 * operations the service uses plus the derived query `findAllByBrand`, over
 * an in-memory table that remembers insertion order.
 */
module Repository {
  import opened Wrappers
  import opened Model

  /** A page of results and the size of the whole result set (`Page<T>`). */
  datatype Page<T> = Page(content: seq<T>, total: nat)

  /** Why a `save` is refused; the service lets these escape as unexpected errors. */
  datatype StoreError =
    | NullColumn(column: string)   // a `nullable = false` column would hold null
    | StaleRow(id: Id)             // merging an entity whose id has no row

  predicate NoDuplicates(ids: seq<Id>) {
    forall i, j :: 0 <= i < j < |ids| ==> ids[i] != ids[j]
  }

  /** The rows named by `ids`, in that order. */
  function RowsOf(ids: seq<Id>, m: map<Id, Device>): (t: seq<Device>)
    requires forall i :: 0 <= i < |ids| ==> ids[i] in m
    ensures |t| == |ids|
    ensures forall k :: 0 <= k < |ids| ==> t[k] == m[ids[k]]
  {
    if ids == [] then [] else [m[ids[0]]] + RowsOf(ids[1..], m)
  }

  /** `ids` with `x` taken out, the others keeping their order. */
  function Without(ids: seq<Id>, x: Id): (r: seq<Id>)
    ensures forall y :: y in r <==> y in ids && y != x
  {
    if ids == [] then []
    else if ids[0] == x then Without(ids[1..], x)
    else [ids[0]] + Without(ids[1..], x)
  }

  /** Taking an id out of a duplicate-free sequence removes exactly one position, or none. */
  lemma {:induction false} WithoutUnique(ids: seq<Id>, x: Id)
    requires NoDuplicates(ids)
    ensures NoDuplicates(Without(ids, x))
    ensures |Without(ids, x)| == if x in ids then |ids| - 1 else |ids|
  {
    if ids != [] {
      var rest := ids[1..];
      assert NoDuplicates(rest);
      assert ids[0] !in rest;
      WithoutUnique(rest, x);
      if ids[0] != x {
        var r := Without(ids, x);
        assert r == [ids[0]] + Without(rest, x);
        assert ids[0] !in Without(rest, x);
        forall i, j | 0 <= i < j < |r| ensures r[i] != r[j] {
          if i == 0 {
            assert r[j] in Without(rest, x);
          } else {
            assert r[i] == Without(rest, x)[i - 1] && r[j] == Without(rest, x)[j - 1];
          }
        }
      }
    }
  }

  /** How many of n results page `page` of size `size` holds. */
  function PageLength(n: nat, page: nat, size: nat): nat {
    if page * size >= n then 0
    else if page * size + size <= n then size
    else n - page * size
  }

  /** Results `page*size .. page*size+size-1` of s, as far as they exist. */
  function Slice<T>(s: seq<T>, page: nat, size: nat): (r: seq<T>)
    ensures |r| == PageLength(|s|, page, size)
    ensures forall k :: 0 <= k < |r| ==> page * size + k < |s| && r[k] == s[page * size + k]
    ensures forall x :: x in r ==> x in s
  {
    var lo := page * size;
    if lo >= |s| then []
    else if lo + size <= |s| then s[lo .. lo + size]
    else s[lo..]
  }

  /** The rows of t whose brand equals `brand`, in order (`findAllByBrand`'s filter). */
  function WithBrand(t: seq<Device>, brand: string): (r: seq<Device>)
    ensures forall d :: d in r <==> d in t && d.brand == Some(brand)
    ensures |r| <= |t|
  {
    if t == [] then []
    else if t[0].brand == Some(brand) then [t[0]] + WithBrand(t[1..], brand)
    else WithBrand(t[1..], brand)
  }

  /** The ids occurring in a sequence. */
  ghost function IdSet(ids: seq<Id>): set<Id> {
    set k | k in ids
  }

  /** The ids among `ids` whose row has brand `brand`. */
  ghost function KeysWithBrand(ids: set<Id>, m: map<Id, Device>, brand: string): set<Id> {
    set k | k in ids && k in m && m[k].brand == Some(brand)
  }

  /**
   * Over a duplicate-free id sequence, the brand filter keeps exactly one row
   * per matching id, so its length is the number of matching ids.
   */
  lemma {:induction false} WithBrandCount(ids: seq<Id>, m: map<Id, Device>, brand: string)
    requires forall i :: 0 <= i < |ids| ==> ids[i] in m
    requires NoDuplicates(ids)
    ensures |WithBrand(RowsOf(ids, m), brand)| == |KeysWithBrand(IdSet(ids), m, brand)|
  {
    if ids != [] {
      var rest := ids[1..];
      assert NoDuplicates(rest);
      WithBrandCount(rest, m, brand);
      assert RowsOf(ids, m)[1..] == RowsOf(rest, m);
      var all := KeysWithBrand(IdSet(ids), m, brand);
      var tail := KeysWithBrand(IdSet(rest), m, brand);
      assert ids[0] !in rest;
      if m[ids[0]].brand == Some(brand) {
        assert all == tail + {ids[0]};
      } else {
        assert all == tail;
      }
    }
  }

  class DeviceRepository {
    /** The table: each row under its id. */
    var rows: map<Id, Device>
    /** Ids in insertion order; the model takes it as the order of an unsorted scan. */
    var order: seq<Id>
    /** Every id handed out so far is below this. */
    var nextId: Id

    /**
     * Each row holds its own key as id and non-null `name` and `brand`
     * (the `nullable = false` columns), every key is below `nextId`, and
     * `order` lists every key exactly once.
     */
    ghost predicate Valid()
      reads this
    {
      && (forall k :: k in rows ==>
            rows[k].id == Some(k) && rows[k].name.Some? && rows[k].brand.Some? && k < nextId)
      && (forall i :: 0 <= i < |order| ==> order[i] in rows)
      && (forall k :: k in rows ==> k in order)
      && NoDuplicates(order)
    }

    constructor ()
      ensures Valid()
      ensures rows == map[] && order == []
    {
      rows, order, nextId := map[], [], 1;
    }

    /** The whole table in insertion order. */
    function Table(): (t: seq<Device>)
      reads this
      requires Valid()
      ensures |t| == |order|
      ensures forall k :: 0 <= k < |t| ==> t[k] == rows[order[k]] && t[k].id == Some(order[k])
    {
      var t := RowsOf(order, rows);
      assert forall k :: 0 <= k < |t| ==> order[k] in rows && t[k] == rows[order[k]];
      t
    }

    /** The ids in `order` are exactly the keys of the table. */
    lemma OrderKeys()
      requires Valid()
      ensures IdSet(order) == rows.Keys
    {
      forall k | k in IdSet(order) ensures k in rows {
        var i :| 0 <= i < |order| && order[i] == k;
      }
      forall k | k in rows ensures k in IdSet(order) {
      }
    }

    /** The table has one position per stored row. */
    lemma TableSize()
      requires Valid()
      ensures |order| == |rows|
    {
      OrderKeys();
      UniqueIdsCount(order);
    }

    /** The table lists every stored row and nothing else. */
    lemma TableRows()
      requires Valid()
      ensures forall d :: d in Table() <==> d in rows.Values
    {
      OrderKeys();
      var t := Table();
      forall d | d in rows.Values ensures d in t {
        var k :| k in rows && rows[k] == d;
        var i :| 0 <= i < |order| && order[i] == k;
        assert t[i] == d;
      }
    }

    /** `findById`: the row, or empty; nothing changes. */
    function FindById(id: Id): (r: Option<Device>)
      reads this
      requires Valid()
      ensures r.Some? <==> id in rows
      ensures r.Some? ==> r.value == rows[id] && r.value.id == Some(id)
    {
      if id in rows then Some(rows[id]) else None
    }

    /** `findAll(pageable)` with an unsorted pageable: a slice of the table in insertion order. */
    function FindAll(page: nat, size: nat): (p: Page<Device>)
      reads this
      requires Valid() && size > 0
      ensures p.total == |rows|
      ensures |p.content| == PageLength(|rows|, page, size)
      ensures forall k :: 0 <= k < |p.content| ==>
                page * size + k < |order| && p.content[k] == rows[order[page * size + k]]
    {
      TableSize();
      var t := Table();
      var c := Slice(t, page, size);
      assert forall k :: 0 <= k < |c| ==> c[k] == t[page * size + k];
      Page(c, |rows|)
    }

    /**
     * `findAllByBrand(brand, pageable)` with an unsorted pageable: only rows of that
     * brand, paged like `FindAll`; the total counts every matching row.
     */
    function FindAllByBrand(brand: string, page: nat, size: nat): (p: Page<Device>)
      reads this
      requires Valid() && size > 0
      ensures p.total == |KeysWithBrand(rows.Keys, rows, brand)|
      ensures |p.content| == PageLength(p.total, page, size)
      ensures forall d :: d in p.content ==> d in rows.Values && d.brand == Some(brand)
      ensures p.content == Slice(WithBrand(Table(), brand), page, size)
    {
      var matching := WithBrand(Table(), brand);
      WithBrandCount(order, rows, brand);
      OrderKeys();
      TableRows();
      Page(Slice(matching, page, size), |matching|)
    }

    /**
     * `save`: a device without id is inserted under a fresh id and gets the
     * audit timestamp when one is supplied; a device whose id has a row
     * replaces that row; a null `name` or `brand`, or an id without a row,
     * is refused and nothing changes.
     */
    method Save(d: Device, audit: Option<Timestamp>) returns (r: Result<Device, StoreError>)
      requires Valid()
      modifies this
      ensures Valid()
      ensures d.id.Some? && d.id.value !in old(rows) ==>
                r == Failure(StaleRow(d.id.value)) && unchanged(this)
      ensures (d.id.None? || d.id.value in old(rows)) && d.name.None? ==>
                r == Failure(NullColumn("name")) && unchanged(this)
      ensures (d.id.None? || d.id.value in old(rows)) && d.name.Some? && d.brand.None? ==>
                r == Failure(NullColumn("brand")) && unchanged(this)
      ensures d.id.None? && d.name.Some? && d.brand.Some? ==>
                && r.Success? && r.value.id.Some?
                && var k := r.value.id.value;
                && k !in old(rows) && old(nextId) <= k < nextId
                && r.value == d.(id := Some(k), createdAt := if audit.Some? then audit else d.createdAt)
                && rows == old(rows)[k := r.value]
                && order == old(order) + [k]
      ensures d.id.Some? && d.id.value in old(rows) && d.name.Some? && d.brand.Some? ==>
                && r == Success(d)
                && rows == old(rows)[d.id.value := d]
                && order == old(order) && nextId == old(nextId)
    {
      if d.id.Some? && d.id.value !in rows {
        return Failure(StaleRow(d.id.value));
      }
      if d.name.None? {
        return Failure(NullColumn("name"));
      }
      if d.brand.None? {
        return Failure(NullColumn("brand"));
      }
      if d.id.None? {
        var k := nextId;
        var row := d.(id := Some(k), createdAt := if audit.Some? then audit else d.createdAt);
        rows := rows[k := row];
        order := order + [k];
        nextId := k + 1;
        r := Success(row);
      } else {
        rows := rows[d.id.value := d];
        r := Success(d);
      }
    }

    /** `deleteById`: removes the row with that id if there is one, and no other. */
    method DeleteById(id: Id)
      requires Valid()
      modifies this
      ensures Valid()
      ensures rows == old(rows) - {id}
      ensures order == Without(old(order), id)
      ensures nextId == old(nextId)
      ensures FindById(id) == None
    {
      WithoutUnique(order, id);
      rows := rows - {id};
      order := Without(order, id);
      assert forall i :: 0 <= i < |order| ==> order[i] in order;
    }

    /** `deleteAll`: empties the table; ids already issued are not handed out again. */
    method DeleteAll()
      requires Valid()
      modifies this
      ensures Valid()
      ensures rows == map[] && order == []
      ensures nextId == old(nextId)
    {
      rows, order := map[], [];
    }
  }

  /** A duplicate-free sequence has as many distinct elements as positions. */
  lemma {:induction false} UniqueIdsCount(ids: seq<Id>)
    requires NoDuplicates(ids)
    ensures |IdSet(ids)| == |ids|
  {
    if ids != [] {
      var rest := ids[1..];
      assert NoDuplicates(rest);
      UniqueIdsCount(rest);
      assert IdSet(ids) == IdSet(rest) + {ids[0]};
      assert ids[0] !in rest;
    }
  }
}
