/**
 * The note handlers (internals/handlers/handlers.go): the order of their checks and
 * the status each one answers with.  A request body is already decoded into a
 * Note, or is unparsable; the route variable `{id}` may be missing; the uuid
 * that Add draws is a parameter.
 */
module Handlers {
  import opened Wrappers
  import opened Http
  import opened Notes
  import opened Decimal
  import opened NoteStore
  import opened StringOrder

  /** A request body after JSON decoding. */
  datatype Payload = Unparsable | Decoded(note: Note)

  /** The offset and limit ListRange passes to the store. */
  datatype Window = Window(offset: int, limit: int)

  /**
   * ListRange's query parameters: a parameter that is missing (read as ""),
   * unparsable, negative or outside 32 bits gives offset 0 and limit -1 (no cap).
   */
  function ListRangeParams(offsetParam: string, limitParam: string): (w: Window)
    ensures 0 <= w.offset <= MaxInt32 && -1 <= w.limit <= MaxInt32
    ensures (match ParseInt32(offsetParam)
             case Some(i) => i >= 0 ==> w.offset == i
             case None => true)
    ensures (match ParseInt32(limitParam)
             case Some(i) => i >= 0 ==> w.limit == i
             case None => true)
    ensures (ParseInt32(offsetParam).None? || ParseInt32(offsetParam).value < 0) ==> w.offset == 0
    ensures (ParseInt32(limitParam).None? || ParseInt32(limitParam).value < 0) ==> w.limit == -1
  {
    var offset := match ParseInt32(offsetParam)
                  case Some(i) => if i >= 0 then i else 0
                  case None => 0;
    var limit := match ParseInt32(limitParam)
                 case Some(i) => if i >= 0 then i else -1
                 case None => -1;
    Window(offset, limit)
  }

  /** Missing parameters mean "from the start, no cap". */
  lemma ListRangeDefaults()
    ensures ListRangeParams("", "") == Window(0, -1)
  {
    ParseInt32Empty();
  }

  /** Any non-negative 32-bit offset and limit written in decimal reach the store unchanged. */
  lemma ListRangeParamsItoa(offset: int, limit: int)
    requires 0 <= offset <= MaxInt32 && 0 <= limit <= MaxInt32
    ensures ListRangeParams(Itoa(offset), Itoa(limit)) == Window(offset, limit)
  {
    ParseInt32Itoa(offset);
    ParseInt32Itoa(limit);
  }

  /** A negative or too large parameter falls back to its default. */
  lemma ListRangeParamsOutOfRange(offset: int, limit: int)
    requires offset < 0 || offset > MaxInt32
    requires limit < 0 || limit > MaxInt32
    ensures ListRangeParams(Itoa(offset), Itoa(limit)) == Window(0, -1)
  {
    ParseInt32Itoa(offset);
    ParseInt32Itoa(limit);
  }

  class Handler {
    const ns: NoteTable

    constructor (ns: NoteTable)
      ensures this.ns == ns
    {
      this.ns := ns;
    }

    /** GET /{id}/ */
    method List(id: Option<string>) returns (status: Status, note: Option<Note>)
      ensures id.None? || id.value == "" ==> status == StatusInternalServerError
      ensures id.Some? && id.value != "" && id.value !in ns.table ==> status == StatusNotFound
      ensures status == StatusOK <==> id.Some? && id.value != "" && id.value in ns.table
      ensures status == StatusOK ==> note == Some(ns.table[id.value])
      ensures status != StatusOK ==> note == None
    {
      if id.None? || id.value == "" {
        return StatusInternalServerError, None;
      }
      if !ns.IsNote(id.value) {
        return StatusNotFound, None;
      }
      var r := ns.GetNote(id.value);
      if r.Err? {
        return StatusInternalServerError, None;
      }
      return StatusOK, Some(r.value);
    }

    /** GET / with optional `offset` and `limit` query parameters. */
    method ListRange(offsetParam: string, limitParam: string) returns (status: Status, notes: seq<Note>)
      ensures status == StatusOK
      ensures var w := ListRangeParams(offsetParam, limitParam);
        && |notes| == PageLength(|ns.table|, w.offset, w.limit)
        && forall i :: 0 <= i < |notes| ==> notes[i] == ns.table[SortedKeys(ns.table.Keys)[w.offset + i]]
    {
      var w := ListRangeParams(offsetParam, limitParam);
      var r := ns.GetRangeNotes(w.offset, w.limit);
      if r.Err? {
        return StatusInternalServerError, [];
      }
      return StatusOK, r.value;
    }

    /**
     * POST / with a note: validate, refuse an id already taken, give an empty id
     * the fresh uuid `freshId`, insert.  The uuid is not checked against the table,
     * so a clash surfaces as the insert's failure.
     */
    method Add(body: Payload, freshId: string) returns (status: Status, created: Option<Note>)
      requires ns.Valid()
      requires freshId != ""
      modifies ns
      ensures ns.Valid()
      ensures old(ns.IdsNonEmpty()) ==> ns.IdsNonEmpty()
      ensures body.Unparsable? ==> status == StatusBadRequest
      ensures body.Decoded? && !VerifyNote(body.note) ==> status == StatusBadRequest
      ensures body.Decoded? && VerifyNote(body.note) && body.note.id in old(ns.table) ==>
                status == StatusBadRequest
      ensures status == StatusBadRequest || status == StatusInternalServerError ==>
                ns.table == old(ns.table) && created == None
      ensures body.Decoded? && VerifyNote(body.note) && body.note.id !in old(ns.table) ==>
                var stored := if body.note.id == "" then body.note.(id := freshId) else body.note;
                if stored.id in old(ns.table) then status == StatusInternalServerError
                else status == StatusCreated && created == Some(stored)
                     && ns.table == old(ns.table)[stored.id := stored]
    {
      if body.Unparsable? {
        return StatusBadRequest, None;
      }
      var note := body.note;
      if !VerifyNote(note) {
        return StatusBadRequest, None;
      }
      if ns.IsNote(note.id) {
        return StatusBadRequest, None;
      }
      if note.id == "" {
        note := note.(id := freshId);
      }
      var r := ns.AddNote(note);
      if r.Err? {
        return StatusInternalServerError, None;
      }
      return StatusCreated, Some(r.value);
    }

    /**
     * POST /{id}/ with a patch: refuse a missing id, answer 404 for an absent note
     * before looking at the body, then merge.
     */
    method Update(id: Option<string>, body: Payload) returns (status: Status, updated: Option<Note>)
      requires ns.Valid()
      modifies ns
      ensures ns.Valid()
      ensures old(ns.IdsNonEmpty()) ==> ns.IdsNonEmpty()
      ensures id.None? || id.value == "" ==> status == StatusInternalServerError
      ensures id.Some? && id.value != "" && id.value !in old(ns.table) ==> status == StatusNotFound
      ensures id.Some? && id.value != "" && id.value in old(ns.table) && body.Unparsable? ==>
                status == StatusBadRequest
      ensures status != StatusOK ==> ns.table == old(ns.table) && updated == None
      ensures id.Some? && id.value != "" && id.value in old(ns.table) && body.Decoded? ==>
                var patch := body.note;
                if RenameCollides(old(ns.table), id.value, patch)
                then status == StatusInternalServerError
                else
                  var merged := Merge(old(ns.table)[id.value], patch);
                  && status == StatusOK && updated == Some(merged)
                  && ns.table == Rewrite(old(ns.table), id.value, merged)
    {
      if id.None? || id.value == "" {
        return StatusInternalServerError, None;
      }
      if !ns.IsNote(id.value) {
        return StatusNotFound, None;
      }
      if body.Unparsable? {
        return StatusBadRequest, None;
      }
      ghost var before := ns.table;
      var r := ns.UpdateNote(id.value, body.note);
      if r.Err? {
        return StatusInternalServerError, None;
      }
      if NoFieldSet(body.note) {
        assert Rewrite(before, id.value, before[id.value]) == before;
      } else if "" !in before {
        RewriteKeepsIdsNonEmpty(before, id.value, body.note);
      }
      return StatusOK, Some(r.value);
    }

    /** DELETE /{id}/: only a missing route variable is refused (an empty id is not). */
    method Delete(id: Option<string>) returns (status: Status)
      requires ns.Valid()
      modifies ns
      ensures ns.Valid()
      ensures old(ns.IdsNonEmpty()) ==> ns.IdsNonEmpty()
      ensures id.None? ==> status == StatusInternalServerError && ns.table == old(ns.table)
      ensures id.Some? && id.value !in old(ns.table) ==> status == StatusNotFound && ns.table == old(ns.table)
      ensures id.Some? && id.value in old(ns.table) ==>
                status == StatusNoContent && ns.table == old(ns.table) - {id.value}
      ensures id.Some? ==> !ns.IsNote(id.value)
    {
      if id.None? {
        return StatusInternalServerError;
      }
      if !ns.IsNote(id.value) {
        return StatusNotFound;
      }
      ns.DeleteNote(id.value);
      return StatusNoContent;
    }
  }

  /**
   * A client of the handlers: create a note without an id, set its company, then
   * rename it; the contracts alone determine every answer.
   */
  method ContactScenario()
  {
    var store := new NoteTable();
    var h := new Handler(store);
    var al := Note("", "Al", None, "555", "a@b.c", None, None);
    var status, created := h.Add(Decoded(al), "X");
    assert status == StatusCreated && created == Some(al.(id := "X"));
    var updated;
    status, updated := h.Update(Some("X"), Decoded(Note("", "", Some("Acme"), "", "", None, None)));
    assert status == StatusOK && updated.value.company == Some("Acme") && updated.value.name == "Al";
    status, updated := h.Update(Some("X"), Decoded(Note("Y", "", None, "", "", None, None)));
    assert status == StatusOK;
    assert !store.IsNote("X");
    var got := store.GetNote("Y");
    assert got.Ok? && got.value.company == Some("Acme");
  }
}
