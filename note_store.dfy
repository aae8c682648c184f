/**
 * The note table (internals/storage/postgreStorage.go), with each SQL statement read
 * as its effect on a map from id to note.  The table's primary key on `id` is an
 * assumption: the schema is created outside this code.
 */
module NoteStore {
  import opened Wrappers
  import opened Notes
  import opened StringOrder

  /** Why a store operation fails: no such row, a violated primary key, a negative OFFSET. */
  datatype StoreError = NoRows | Conflict | InvalidOffset

  // ---------------------------------------------------------------------------
  // Partial update: the SET list of the UPDATE statement and the merge it performs
  // ---------------------------------------------------------------------------

  /** One `column = value` entry of the UPDATE statement's SET list. */
  datatype Assignment =
    | SetId(id: string)
    | SetName(name: string)
    | SetCompany(company: string)
    | SetPhone(phone: string)
    | SetMail(mail: string)
    | SetBirthDate(birthDate: string)
    | SetImageId(imageId: string)

  /** A SET entry whose value counts as set: non-empty for the string columns. */
  predicate SetsValue(a: Assignment)
  {
    match a
    case SetId(v) => v != ""
    case SetName(v) => v != ""
    case SetPhone(v) => v != ""
    case SetMail(v) => v != ""
    case _ => true
  }

  /** One SET entry on a row: the merge with the patch that sets only that column. */
  function Assign(n: Note, a: Assignment): (r: Note)
    ensures SetsValue(a) ==> r == Merge(n, Override(Unset, a))
  {
    match a
    case SetId(v) => n.(id := v)
    case SetName(v) => n.(name := v)
    case SetCompany(v) => n.(company := Some(v))
    case SetPhone(v) => n.(phone := v)
    case SetMail(v) => n.(mail := v)
    case SetBirthDate(v) => n.(birthDate := Some(v))
    case SetImageId(v) => n.(imageId := Some(v))
  }

  /** The columns of the `notes` table. */
  datatype Column = IdColumn | NameColumn | CompanyColumn | PhoneColumn | MailColumn | BirthDateColumn | ImageIdColumn

  /** The column a SET entry writes. */
  function ColumnOf(a: Assignment): Column
  {
    match a
    case SetId(_) => IdColumn
    case SetName(_) => NameColumn
    case SetCompany(_) => CompanyColumn
    case SetPhone(_) => PhoneColumn
    case SetMail(_) => MailColumn
    case SetBirthDate(_) => BirthDateColumn
    case SetImageId(_) => ImageIdColumn
  }

  /** The columns a SET list writes. */
  function Columns(updates: seq<Assignment>): set<Column>
  {
    set i | 0 <= i < |updates| :: ColumnOf(updates[i])
  }

  /** The two rows hold the same value in column `c`. */
  predicate SameColumn(a: Note, b: Note, c: Column)
  {
    match c
    case IdColumn => a.id == b.id
    case NameColumn => a.name == b.name
    case CompanyColumn => a.company == b.company
    case PhoneColumn => a.phone == b.phone
    case MailColumn => a.mail == b.mail
    case BirthDateColumn => a.birthDate == b.birthDate
    case ImageIdColumn => a.imageId == b.imageId
  }

  /**
   * The row an UPDATE with the given SET list leaves behind: a column that no entry
   * names keeps its value.
   */
  function Apply(n: Note, updates: seq<Assignment>): (r: Note)
    ensures forall c :: c !in Columns(updates) ==> SameColumn(r, n, c)
    decreases |updates|
  {
    if updates == [] then n
    else
      assert forall c :: c in Columns(updates[1..]) ==> c in Columns(updates) by {
        forall c | c in Columns(updates[1..]) ensures c in Columns(updates) {
          var i :| 0 <= i < |updates[1..]| && ColumnOf(updates[1..][i]) == c;
          assert ColumnOf(updates[i + 1]) == c;
        }
      }
      assert ColumnOf(updates[0]) in Columns(updates);
      Apply(Assign(n, updates[0]), updates[1..])
  }

  lemma {:induction false} ApplyAppend(n: Note, updates: seq<Assignment>, a: Assignment)
    ensures Apply(n, updates + [a]) == Assign(Apply(n, updates), a)
    decreases |updates|
  {
    if updates != [] {
      assert (updates + [a])[1..] == updates[1..] + [a];
      ApplyAppend(Assign(n, updates[0]), updates[1..], a);
    }
  }

  /** A patch that sets nothing: every string empty, every optional field absent. */
  predicate NoFieldSet(patch: Note)
  {
    && patch.id == "" && patch.name == "" && patch.phone == "" && patch.mail == ""
    && patch.company.None? && patch.birthDate.None? && patch.imageId.None?
  }

  /**
   * The reference merge: a set field of the patch wins, an unset one keeps the stored
   * value.  A string field is set when non-empty, an optional one when present.
   */
  function Merge(stored: Note, patch: Note): (r: Note)
    ensures NoFieldSet(patch) ==> r == stored
    ensures VerifyNote(stored) ==> VerifyNote(r)
    ensures stored.id != "" ==> r.id != ""
  {
    Note(
      if patch.id != "" then patch.id else stored.id,
      if patch.name != "" then patch.name else stored.name,
      if patch.company.Some? then patch.company else stored.company,
      if patch.phone != "" then patch.phone else stored.phone,
      if patch.mail != "" then patch.mail else stored.mail,
      if patch.birthDate.Some? then patch.birthDate else stored.birthDate,
      if patch.imageId.Some? then patch.imageId else stored.imageId)
  }

  /** Applying the same patch twice is applying it once. */
  lemma MergeIdempotent(stored: Note, patch: Note)
    ensures Merge(Merge(stored, patch), patch) == Merge(stored, patch)
  {
  }

  /** Two successive partial updates are one partial update whose later set fields win. */
  lemma MergeCompose(stored: Note, first: Note, second: Note)
    ensures Merge(Merge(stored, first), second) == Merge(stored, Merge(first, second))
  {
  }

  /** The SET list `updates` performs the merge with `patch`, on every row. */
  ghost predicate Performs(updates: seq<Assignment>, patch: Note)
  {
    forall n :: Apply(n, updates) == Merge(n, patch)
  }

  /** The patch that sets exactly what `a` assigns, on top of `patch`. */
  function Override(patch: Note, a: Assignment): Note
  {
    match a
    case SetId(v) => patch.(id := v)
    case SetName(v) => patch.(name := v)
    case SetCompany(v) => patch.(company := Some(v))
    case SetPhone(v) => patch.(phone := v)
    case SetMail(v) => patch.(mail := v)
    case SetBirthDate(v) => patch.(birthDate := Some(v))
    case SetImageId(v) => patch.(imageId := Some(v))
  }

  /** Appending a non-empty assignment to a SET list extends the merge it performs. */
  lemma PerformsAppend(updates: seq<Assignment>, patch: Note, a: Assignment)
    requires Performs(updates, patch)
    requires !a.SetId? || a.id != ""
    requires !a.SetName? || a.name != ""
    requires !a.SetPhone? || a.phone != ""
    requires !a.SetMail? || a.mail != ""
    ensures Performs(updates + [a], Override(patch, a))
  {
    forall n ensures Apply(n, updates + [a]) == Merge(n, Override(patch, a)) {
      ApplyAppend(n, updates, a);
    }
  }

  /** The patch that sets nothing. */
  const Unset := Note("", "", None, "", "", None, None)

  /**
   * The SET list UpdateNote builds, one `append` per set field of the patch.
   * Executing it is the reference merge, and it is empty exactly when nothing is set.
   */
  method BuildUpdates(patch: Note) returns (updates: seq<Assignment>)
    ensures updates == [] <==> NoFieldSet(patch)
    ensures |updates| <= 7
    ensures Performs(updates, patch)
  {
    updates := [];
    // `sofar` is the part of `patch` examined so far
    ghost var sofar := Unset;
    assert Performs(updates, sofar);
    if patch.id != "" {
      PerformsAppend(updates, sofar, SetId(patch.id));
      updates, sofar := updates + [SetId(patch.id)], Override(sofar, SetId(patch.id));
    }
    if patch.name != "" {
      PerformsAppend(updates, sofar, SetName(patch.name));
      updates, sofar := updates + [SetName(patch.name)], Override(sofar, SetName(patch.name));
    }
    if patch.company.Some? {
      PerformsAppend(updates, sofar, SetCompany(patch.company.value));
      updates, sofar := updates + [SetCompany(patch.company.value)], Override(sofar, SetCompany(patch.company.value));
    }
    if patch.phone != "" {
      PerformsAppend(updates, sofar, SetPhone(patch.phone));
      updates, sofar := updates + [SetPhone(patch.phone)], Override(sofar, SetPhone(patch.phone));
    }
    if patch.mail != "" {
      PerformsAppend(updates, sofar, SetMail(patch.mail));
      updates, sofar := updates + [SetMail(patch.mail)], Override(sofar, SetMail(patch.mail));
    }
    if patch.birthDate.Some? {
      PerformsAppend(updates, sofar, SetBirthDate(patch.birthDate.value));
      updates, sofar := updates + [SetBirthDate(patch.birthDate.value)], Override(sofar, SetBirthDate(patch.birthDate.value));
    }
    if patch.imageId.Some? {
      PerformsAppend(updates, sofar, SetImageId(patch.imageId.value));
      updates, sofar := updates + [SetImageId(patch.imageId.value)], Override(sofar, SetImageId(patch.imageId.value));
    }
    assert sofar == patch;
  }

  // ---------------------------------------------------------------------------
  // Listing: ORDER BY id LIMIT limit OFFSET offset
  // ---------------------------------------------------------------------------

  /** Length of a page: what is left after `offset`, capped at `limit` unless `limit < 0`. */
  function PageLength(n: nat, offset: nat, limit: int): nat
  {
    var rest := if offset <= n then n - offset else 0;
    if limit < 0 || limit >= rest then rest else limit
  }

  /** Drop the first `offset` elements, then keep at most `limit` (all when `limit < 0`). */
  function Page<T>(s: seq<T>, offset: nat, limit: int): (r: seq<T>)
    ensures |r| == PageLength(|s|, offset, limit)
    ensures forall i :: 0 <= i < |r| ==> r[i] == s[offset + i]
  {
    var rest := if offset <= |s| then s[offset..] else [];
    if limit < 0 || limit >= |rest| then rest else rest[..limit]
  }

  /** Offset 0 with a negative limit serves everything; limit 0 serves nothing. */
  lemma PageExtremes<T>(s: seq<T>, offset: nat, limit: int)
    ensures limit < 0 ==> Page(s, 0, limit) == s
    ensures Page(s, offset, 0) == []
    ensures offset >= |s| ==> Page(s, offset, limit) == []
  {
  }

  /** Offset 2 with limit 1 is exactly the third element, if there is one. */
  lemma PageThird<T>(s: seq<T>)
    ensures Page(s, 2, 1) == if |s| >= 3 then [s[2]] else []
  {
  }

  /** Every key of the table maps to a note carrying that key as its id. */
  ghost predicate KeyedById(t: map<string, Note>)
  {
    forall k :: k in t ==> t[k].id == k
  }

  /** All notes of the table, ascending by id. */
  function InIdOrder(t: map<string, Note>): (ns: seq<Note>)
    ensures |ns| == |t|
    ensures forall i :: 0 <= i < |ns| ==> ns[i] == t[SortedKeys(t.Keys)[i]]
  {
    var keys := SortedKeys(t.Keys);
    seq(|keys|, i requires 0 <= i < |keys| => t[keys[i]])
  }

  /** InIdOrder lists each stored note exactly once, strictly ascending by id. */
  lemma {:induction false} InIdOrderIsSortedTable(t: map<string, Note>)
    requires KeyedById(t)
    ensures forall i, j :: 0 <= i < j < |InIdOrder(t)| ==> Less(InIdOrder(t)[i].id, InIdOrder(t)[j].id)
    ensures forall n :: n in InIdOrder(t) <==> n in t.Values
  {
    var ns, keys := InIdOrder(t), SortedKeys(t.Keys);
    forall i | 0 <= i < |ns| ensures ns[i].id == keys[i] {
      assert keys[i] in t;
    }
    forall n ensures n in ns <==> n in t.Values {
      if n in t.Values {
        var k :| k in t && t[k] == n;
        assert k in keys;
        var i :| 0 <= i < |keys| && keys[i] == k;
        assert ns[i] == n;
      }
    }
  }

  // ---------------------------------------------------------------------------
  // The table after a successful update
  // ---------------------------------------------------------------------------

  /** A rename onto another row's id, which the primary key refuses. */
  predicate RenameCollides(t: map<string, Note>, id: string, patch: Note)
  {
    patch.id != "" && patch.id != id && patch.id in t
  }

  /** Row `id` replaced by `merged`, now stored under `merged.id`. */
  function Rewrite(t: map<string, Note>, id: string, merged: Note): (r: map<string, Note>)
    ensures r.Keys == t.Keys - {id} + {merged.id}
    ensures r[merged.id] == merged
    ensures forall k :: k in r && k != merged.id ==> r[k] == t[k]
  {
    (t - {id})[merged.id := merged]
  }

  /**
   * A successful update keeps the table keyed by id; the record lives under the
   * merged id, the old id is gone when it changed, and every other row is untouched.
   */
  lemma RewriteEffect(t: map<string, Note>, id: string, patch: Note)
    requires KeyedById(t) && id in t && !RenameCollides(t, id, patch)
    ensures var merged := Merge(t[id], patch);
      && var t' := Rewrite(t, id, merged);
      && KeyedById(t')
      && merged.id in t' && t'[merged.id] == merged
      && (patch.id != "" ==> merged.id == patch.id && (patch.id != id ==> id !in t'))
      && (patch.id == "" ==> merged.id == id)
      && (forall k :: k != id && k != merged.id ==> (k in t' <==> k in t) && (k in t ==> t'[k] == t[k]))
      && |t'| == |t|
  {
    var merged := Merge(t[id], patch);
    var t' := Rewrite(t, id, merged);
    assert merged.id == id || merged.id !in t;
    assert t'.Keys == t.Keys - {id} + {merged.id};
  }

  /** No update ever stores a note under the empty id. */
  lemma RewriteKeepsIdsNonEmpty(t: map<string, Note>, id: string, patch: Note)
    requires KeyedById(t) && id in t && "" !in t
    ensures "" !in Rewrite(t, id, Merge(t[id], patch))
  {
  }

  // ---------------------------------------------------------------------------
  // The store
  // ---------------------------------------------------------------------------

  /** The `notes` table, as a map from id to row. */
  class NoteTable {
    var table: map<string, Note>

    /** The primary key: each row is stored under its own id. */
    ghost predicate Valid()
      reads this
    {
      KeyedById(table)
    }

    /** No row has the empty id (kept by the handlers, not by the table). */
    ghost predicate IdsNonEmpty()
      reads this
    {
      "" !in table
    }

    constructor ()
      ensures Valid() && IdsNonEmpty() && table == map[]
    {
      table := map[];
    }

    /** `SELECT exists(...)`: membership, without changing anything. */
    function IsNote(id: string): (present: bool)
      reads this
      ensures present <==> id in table
    {
      id in table
    }

    /** `SELECT * ... WHERE id = $1` collected as one row: no row is an error. */
    function GetNote(id: string): (r: Result<Note, StoreError>)
      reads this
      ensures r.Ok? <==> id in table
      ensures r.Ok? ==> r.value == table[id]
      ensures r.Err? ==> r.error == NoRows
    {
      if id in table then Ok(table[id]) else Err(NoRows)
    }

    /**
     * `SELECT * ... ORDER BY id LIMIT l OFFSET o`, where `l` is ALL for a negative
     * limit.  PostgreSQL refuses a negative OFFSET.
     */
    function GetRangeNotes(offset: int, limit: int): (r: Result<seq<Note>, StoreError>)
      reads this
      ensures r.Err? <==> offset < 0
      ensures r.Err? ==> r.error == InvalidOffset
      ensures r.Ok? ==> |r.value| == PageLength(|table|, offset, limit)
      ensures r.Ok? ==> forall i :: 0 <= i < |r.value| ==>
                          r.value[i] == table[SortedKeys(table.Keys)[offset + i]]
    {
      if offset < 0 then Err(InvalidOffset) else Ok(Page(InIdOrder(table), offset, limit))
    }

    /** `INSERT ... RETURNING *`: a taken id violates the primary key. */
    method AddNote(n: Note) returns (r: Result<Note, StoreError>)
      requires Valid()
      modifies this
      ensures Valid()
      ensures n.id in old(table) ==> r == Err(Conflict) && table == old(table)
      ensures n.id !in old(table) ==> r == Ok(n) && table == old(table)[n.id := n]
    {
      if n.id in table {
        return Err(Conflict);
      }
      table := table[n.id := n];
      r := GetNote(n.id);
    }

    /**
     * Partial update of row `id`.  With nothing set it only reads row `id`.
     * Otherwise the UPDATE runs (touching no row when `id` is absent, failing on a
     * rename onto another row's id) and the row is read back under the patch's id
     * when one is set, else under `id`.
     */
    method UpdateNote(id: string, patch: Note) returns (r: Result<Note, StoreError>)
      requires Valid()
      modifies this
      ensures Valid()
      ensures NoFieldSet(patch) ==> table == old(table) && r == old(GetNote(id))
      ensures !NoFieldSet(patch) && id !in old(table) ==>
                table == old(table) && r == old(GetNote(if patch.id == "" then id else patch.id))
      ensures !NoFieldSet(patch) && id in old(table) && RenameCollides(old(table), id, patch) ==>
                table == old(table) && r == Err(Conflict)
      ensures !NoFieldSet(patch) && id in old(table) && !RenameCollides(old(table), id, patch) ==>
                var merged := Merge(old(table)[id], patch);
                table == Rewrite(old(table), id, merged) && r == Ok(merged)
    {
      var updates := BuildUpdates(patch);
      if |updates| == 0 {
        return GetNote(id);
      }
      if id in table {
        var merged := Apply(table[id], updates);
        if merged.id != id && merged.id in table {
          return Err(Conflict);
        }
        table := (table - {id})[merged.id := merged];
      }
      if patch.id == "" {
        r := GetNote(id);
      } else {
        r := GetNote(patch.id);
      }
    }

    /** `DELETE ... WHERE id = $1`: removes that row if there is one, nothing else. */
    method DeleteNote(id: string)
      requires Valid()
      modifies this
      ensures Valid()
      ensures table == old(table) - {id}
    {
      table := table - {id};
    }
  }

  /** With offset 0 and limit -1 every stored note is served, strictly ascending by id. */
  lemma AllNotesServed(store: NoteTable)
    requires store.Valid()
    ensures store.GetRangeNotes(0, -1) == Ok(InIdOrder(store.table))
    ensures forall n :: n in InIdOrder(store.table) <==> n in store.table.Values
    ensures forall i, j :: 0 <= i < j < |InIdOrder(store.table)| ==>
              Less(InIdOrder(store.table)[i].id, InIdOrder(store.table)[j].id)
  {
    PageExtremes(InIdOrder(store.table), 0, -1);
    InIdOrderIsSortedTable(store.table);
  }
}
