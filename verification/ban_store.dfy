/**
 * The `Ban` table of alexis/modules/bans.py with the two access patterns the
 * commands use: `get_or_create` by (userid, server) and an `UPDATE ... WHERE`
 * on the same pair. Rows are kept in insertion order; contracts speak of the
 * map view `Counts` from (userid, server) to the ban count.
 */
module BanStore {
  import opened Wrappers

  /** The natural key of a ban record. */
  datatype Key = Key(userid: string, server: string)

  /** A row of `Ban`; the `lastban` timestamp is not modelled. */
  datatype Row = Row(user: string, userid: string, bans: int, server: string)

  type Table = seq<Row>

  /** The range of an SQLite INTEGER, the storage class of the `bans` column. */
  const Int64Min: int := -0x8000_0000_0000_0000
  const Int64Max: int := 0x7FFF_FFFF_FFFF_FFFF

  /** Whether `n` can be bound as an SQLite INTEGER; a larger Python int raises `OverflowError`. */
  predicate FitsInt64(n: int) {
    Int64Min <= n <= Int64Max
  }

  function KeyOf(r: Row): Key {
    Key(r.userid, r.server)
  }

  /** At most one row per (userid, server). */
  predicate UniqueKeys(t: Table) {
    forall i, j :: 0 <= i < j < |t| ==> KeyOf(t[i]) != KeyOf(t[j])
  }

  /** The position of the row with key `k`, if any. */
  function Find(t: Table, k: Key): (r: Option<nat>)
    ensures r.Some? ==> r.value < |t| && KeyOf(t[r.value]) == k
    ensures r.None? <==> forall i :: 0 <= i < |t| ==> KeyOf(t[i]) != k
  {
    if t == [] then None
    else if KeyOf(t[|t| - 1]) == k then Some(|t| - 1)
    else Find(t[..|t| - 1], k)
  }

  /** The keys that have a row. */
  function Keys(t: Table): set<Key> {
    set i | 0 <= i < |t| :: KeyOf(t[i])
  }

  /** The table seen as a map from key to ban count; a later row wins over an earlier one. */
  function Counts(t: Table): map<Key, int> {
    if t == [] then map[] else Counts(t[..|t| - 1])[KeyOf(t[|t| - 1]) := t[|t| - 1].bans]
  }

  /** The keys of the map view are the keys that have a row. */
  lemma {:induction false} CountsKeys(t: Table)
    ensures Counts(t).Keys == Keys(t)
  {
    if t != [] {
      var init := t[..|t| - 1];
      var last := t[|t| - 1];
      CountsKeys(init);
      assert t == init + [last];
      KeysAppend(init, last);
    }
  }

  /** With unique keys, the map view gives every row's own count. */
  lemma {:induction false} CountsOfUnique(t: Table)
    requires UniqueKeys(t)
    ensures forall i :: 0 <= i < |t| ==> KeyOf(t[i]) in Counts(t) && Counts(t)[KeyOf(t[i])] == t[i].bans
  {
    if t != [] {
      var init := t[..|t| - 1];
      var last := t[|t| - 1];
      assert UniqueKeys(init);
      CountsOfUnique(init);
      forall i | 0 <= i < |t|
        ensures KeyOf(t[i]) in Counts(t) && Counts(t)[KeyOf(t[i])] == t[i].bans
      {
        if i < |t| - 1 {
          assert t[i] == init[i];
          assert KeyOf(t[i]) != KeyOf(last);
        }
      }
    }
  }

  /** The count the commands read for a key: 0 when there is no record. */
  function CountOr0(t: Table, k: Key): (n: int)
    ensures k in Counts(t) ==> n == Counts(t)[k]
    ensures k !in Counts(t) ==> n == 0
  {
    if k in Counts(t) then Counts(t)[k] else 0
  }

  /** The map view and `Find` agree: both look for the last row with the key. */
  lemma {:induction false} CountsFind(t: Table, k: Key)
    ensures Find(t, k).None? <==> k !in Counts(t)
    ensures Find(t, k).Some? ==> Counts(t)[k] == t[Find(t, k).value].bans
  {
    if t != [] {
      CountsFind(t[..|t| - 1], k);
    }
  }

  lemma UpdateSame(m: map<Key, int>, k: Key)
    requires k in m
    ensures m[k := m[k]] == m
  {
  }

  /** A freshly created row: the field default `bans = 0`, and `user` from the creation defaults. */
  function NewRow(k: Key, user: string): (r: Row)
    ensures r.bans == 0 && KeyOf(r) == k && r.user == user
  {
    Row(user, k.userid, 0, k.server)
  }

  lemma KeysAppend(t: Table, r: Row)
    ensures Keys(t + [r]) == Keys(t) + {KeyOf(r)}
  {
    var t' := t + [r];
    forall k | k in Keys(t')
      ensures k in Keys(t) + {KeyOf(r)}
    {
      var i :| 0 <= i < |t'| && KeyOf(t'[i]) == k;
      if i < |t| {
        assert t'[i] == t[i];
      }
    }
    forall k | k in Keys(t)
      ensures k in Keys(t')
    {
      var i :| 0 <= i < |t| && KeyOf(t[i]) == k;
      assert t'[i] == t[i];
    }
    assert t'[|t|] == r;
  }

  /** The outcome of `get_or_create`: the table afterwards, the row's position, and whether it was created. */
  datatype Fetched = Fetched(table: Table, index: nat, created: bool)

  /** `Ban.get_or_create(userid=..., server=..., defaults={'user': user})`. */
  function GetOrCreate(t: Table, k: Key, user: string): (r: Fetched)
    requires UniqueKeys(t)
    ensures UniqueKeys(r.table)
    ensures r.index < |r.table| && KeyOf(r.table[r.index]) == k
    ensures r.table[r.index].bans == CountOr0(t, k)
    ensures r.created <==> k !in Counts(t)
    ensures !r.created ==> r.table == t
    ensures r.created ==> r.table == t + [NewRow(k, user)]
    ensures Counts(r.table) == Counts(t)[k := CountOr0(t, k)]
  {
    CountsFind(t, k);
    match Find(t, k)
    case Some(i) =>
      UpdateSame(Counts(t), k);
      Fetched(t, i, false)
    case None =>
      var t' := t + [NewRow(k, user)];
      assert t'[..|t'| - 1] == t;
      Fetched(t', |t|, true)
  }

  /** The new value an `UPDATE` gives the `bans` column. */
  datatype Change = AddOne | SetTo(n: int)

  function Apply(c: Change, bans: int): int {
    match c
    case AddOne => bans + 1
    case SetTo(n) => n
  }

  /** The `UPDATE` on one row: only a row with key `k` gets the new count and `user`. */
  function UpdateRow(row: Row, k: Key, c: Change, user: string): (r: Row)
    ensures KeyOf(r) == KeyOf(row)
    ensures KeyOf(row) == k ==> r.bans == Apply(c, row.bans) && r.user == user
    ensures KeyOf(row) != k ==> r == row
  {
    if KeyOf(row) == k then row.(bans := Apply(c, row.bans), user := user) else row
  }

  /** `Ban.update(bans=..., user=user).where(userid == k.userid, server == k.server)`. */
  function Update(t: Table, k: Key, c: Change, user: string): (r: Table)
    ensures |r| == |t|
    ensures forall i :: 0 <= i < |t| ==> r[i] == UpdateRow(t[i], k, c, user)
  {
    if t == [] then [] else Update(t[..|t| - 1], k, c, user) + [UpdateRow(t[|t| - 1], k, c, user)]
  }

  lemma OverwriteTwice(m: map<Key, int>, k: Key, a: int, b: int)
    ensures m[k := a][k := b] == m[k := b]
  {
  }

  /** An update never touches a key. */
  lemma UpdateKeepsKeys(t: Table, k: Key, c: Change, user: string)
    ensures forall i :: 0 <= i < |t| ==> KeyOf(Update(t, k, c, user)[i]) == KeyOf(t[i])
    ensures UniqueKeys(t) ==> UniqueKeys(Update(t, k, c, user))
  {
    var r := Update(t, k, c, user);
    assert forall i :: 0 <= i < |t| ==> KeyOf(r[i]) == KeyOf(t[i]);
  }

  /** Updating changes the count of `k` alone, and keeps the keys unique. */
  lemma {:induction false} UpdateCounts(t: Table, k: Key, c: Change, user: string)
    requires UniqueKeys(t)
    requires k in Counts(t)
    ensures UniqueKeys(Update(t, k, c, user))
    ensures Counts(Update(t, k, c, user)) == Counts(t)[k := Apply(c, Counts(t)[k])]
  {
    UpdateKeepsKeys(t, k, c, user);
    UpdateCountsAnyTable(t, k, c, user);
  }

  lemma UpdatesCommute(m: map<Key, int>, k: Key, a: int, j: Key, b: int)
    requires k != j
    ensures m[k := a][j := b] == m[j := b][k := a]
  {
  }

  /** The same, stated for any table: the count of `k` is the one of its last row. */
  lemma {:induction false} UpdateCountsAnyTable(t: Table, k: Key, c: Change, user: string)
    ensures k in Counts(t) ==> Counts(Update(t, k, c, user)) == Counts(t)[k := Apply(c, Counts(t)[k])]
    ensures k !in Counts(t) ==> Counts(Update(t, k, c, user)) == Counts(t)
  {
    if t != [] {
      var init := t[..|t| - 1];
      var last := t[|t| - 1];
      var j := KeyOf(last);
      var u := Update(t, k, c, user);
      var before := Counts(init);
      var after := Counts(Update(init, k, c, user));
      UpdateCountsAnyTable(init, k, c, user);
      assert u[..|u| - 1] == Update(init, k, c, user);
      assert Counts(u) == after[j := UpdateRow(last, k, c, user).bans];
      assert Counts(t) == before[j := last.bans];
      if j == k {
        var x := Apply(c, last.bans);
        assert Counts(u) == after[k := x];
        if k in before {
          OverwriteTwice(before, k, Apply(c, before[k]), x);
        }
        assert Counts(u) == before[k := x];
        OverwriteTwice(before, k, last.bans, x);
      } else if k in before {
        var a := Apply(c, before[k]);
        assert Counts(u) == before[k := a][j := last.bans];
        UpdatesCommute(before, k, a, j, last.bans);
      }
    }
  }

  /**
   * The pattern both writers use, `get_or_create` followed by an `UPDATE` on
   * the same key: the record's count becomes `Apply(c, old count or 0)` and no
   * other record changes.
   */
  lemma {:induction false} GetOrCreateThenUpdate(t: Table, k: Key, c: Change, user: string)
    requires UniqueKeys(t)
    ensures var got := GetOrCreate(t, k, user);
      && got.table[got.index].bans == CountOr0(t, k)
      && UniqueKeys(Update(got.table, k, c, user))
      && Counts(Update(got.table, k, c, user)) == Counts(t)[k := Apply(c, CountOr0(t, k))]
  {
    var got := GetOrCreate(t, k, user);
    var prior := got.table[got.index].bans;
    CountsOfUnique(got.table);
    UpdateCounts(got.table, k, c, user);
    OverwriteTwice(Counts(t), k, CountOr0(t, k), Apply(c, prior));
  }

  /**
   * The rows after a writer's step on `k` with `user`: a row is appended only
   * for a new key, rows with other keys keep their place and contents, and
   * every row with key `k` carries `user`.
   */
  predicate RowsWritten(t: Table, after: Table, k: Key, user: string) {
    && |after| == |t| + (if k in Counts(t) then 0 else 1)
    && (forall i :: 0 <= i < |t| && KeyOf(t[i]) != k ==> after[i] == t[i])
    && (forall i :: |t| <= i < |after| ==> KeyOf(after[i]) == k)
    && (forall i :: 0 <= i < |after| && KeyOf(after[i]) == k ==> after[i].user == user)
  }

  /** The rows `get_or_create` followed by the `UPDATE` leaves. */
  lemma WriteRows(t: Table, k: Key, c: Change, user: string)
    requires UniqueKeys(t)
    ensures RowsWritten(t, Update(GetOrCreate(t, k, user).table, k, c, user), k, user)
  {
    var got := GetOrCreate(t, k, user).table;
    var after := Update(got, k, c, user);
    assert |after| == |t| + (if k in Counts(t) then 0 else 1);
    forall i | 0 <= i < |t| && KeyOf(t[i]) != k
      ensures after[i] == t[i]
    {
      assert got[i] == t[i];
    }
    forall i | |t| <= i < |after|
      ensures KeyOf(after[i]) == k
    {
      assert got[i] == NewRow(k, user);
    }
    forall i | 0 <= i < |after| && KeyOf(after[i]) == k
      ensures after[i].user == user
    {
      assert after[i] == UpdateRow(got[i], k, c, user);
    }
  }

  /**
   * A writer's step: the row `get_or_create` returned (its count `prior`, and
   * whether it was `created`), and the table after the `UPDATE`.
   */
  datatype Written = Written(table: Table, prior: int, created: bool)

  /** `get_or_create` on `k`, then `UPDATE` the same key with `c`. */
  function Write(t: Table, k: Key, c: Change, user: string): (r: Written)
    requires UniqueKeys(t)
    ensures UniqueKeys(r.table)
    ensures r.created <==> k !in Counts(t)
    ensures r.prior == CountOr0(t, k)
    ensures Counts(r.table) == Counts(t)[k := Apply(c, r.prior)]
    ensures RowsWritten(t, r.table, k, user)
  {
    var got := GetOrCreate(t, k, user);
    GetOrCreateThenUpdate(t, k, c, user);
    WriteRows(t, k, c, user);
    Written(Update(got.table, k, c, user), got.table[got.index].bans, got.created)
  }

  // ------------------------------------------------ select ... order_by desc

  /** The rows of one server, in table order (`where(Ban.server == server)`). */
  function ServerRows(t: Table, server: string): (r: Table)
    ensures |r| <= |t|
    ensures forall i :: 0 <= i < |r| ==> r[i].server == server
  {
    if t == [] then []
    else (if t[0].server == server then [t[0]] else []) + ServerRows(t[1..], server)
  }

  /** The selection keeps exactly the rows of the server. */
  lemma {:induction false} ServerRowsContents(t: Table, server: string, x: Row)
    ensures x in ServerRows(t, server) <==> x in t && x.server == server
  {
    if t != [] {
      ServerRowsContents(t[1..], server, x);
      assert t == [t[0]] + t[1..];
    }
  }

  /** No row is followed by one with more bans. */
  predicate Descending(s: Table) {
    forall i, j :: 0 <= i < j < |s| ==> s[i].bans >= s[j].bans
  }

  /** Inserts `x` before the first row with at most as many bans. */
  function Insert(x: Row, s: Table): (r: Table)
    requires Descending(s)
    ensures Descending(r)
    ensures multiset(r) == multiset(s) + multiset{x}
    ensures |r| == |s| + 1
    ensures r[0] == x || (s != [] && r[0] == s[0])
  {
    if s == [] || x.bans >= s[0].bans then
      InsertDescending(x, s);
      [x] + s
    else
      var tail := s[1..];
      assert Descending(tail);
      var rest := Insert(x, tail);
      assert multiset(s) == multiset{s[0]} + multiset(tail) by {
        assert s == [s[0]] + tail;
      }
      assert multiset([s[0]] + rest) == multiset{s[0]} + multiset(rest);
      InsertDescending(s[0], rest);
      [s[0]] + rest
  }

  /** Putting a row with at least as many bans in front keeps a table descending. */
  lemma InsertDescending(y: Row, rest: Table)
    requires Descending(rest)
    requires rest != [] ==> y.bans >= rest[0].bans
    ensures Descending([y] + rest)
  {
    var r := [y] + rest;
    forall i, j | 0 <= i < j < |r|
      ensures r[i].bans >= r[j].bans
    {
      if i == 0 && j > 1 {
        assert r[j] == rest[j - 1];
        assert rest[0].bans >= rest[j - 1].bans;
      }
    }
  }

  /** `order_by(Ban.bans.desc())`: a descending rearrangement of the rows (stable on ties). */
  function SortDescending(s: Table): (r: Table)
    ensures Descending(r)
    ensures multiset(r) == multiset(s)
    ensures |r| == |s|
  {
    if s == [] then []
    else
      assert s == [s[0]] + s[1..];
      Insert(s[0], SortDescending(s[1..]))
  }
}
