/**
 The SQLite event store (src/repo/sqlite.rs): the `event` and `tag` tables, the write
 transaction `persist_event` and the expiry sweep `delete_expired`.

 A table maps row ids to rows. SQLite hands out one more than the largest live row id, so an
 id may be used again after its row is deleted.
 */
module Store {
  import opened Wrappers
  import opened Hex
  import opened Events

  datatype EventRow = EventRow(
    hash: Blob, createdAt: nat, expiresAt: Option<nat>, kind: nat, author: Blob, hidden: bool, content: Event)

  datatype TagRow = TagRow(eventId: nat, name: string, value: string, kind: nat, createdAt: nat)

  datatype Db = Db(events: map<nat, EventRow>, tags: map<nat, TagRow>)

  const EMPTY := Db(map[], map[])

  /** Numbers bound as SQL parameters must fit a signed 64-bit integer. */
  const I64_LIMIT: nat := 0x8000_0000_0000_0000

  /** The number of rows reported to the caller, or a database error. */
  datatype Outcome = Wrote(rows: nat) | Failed

  datatype Persisted = Persisted(db: Db, outcome: Outcome)

  // ---- ordering -------------------------------------------------------------

  /** First under ORDER BY stamp DESC, equal stamps in row order. */
  predicate IsNewest(stamps: map<nat, nat>, k: nat) {
    k in stamps
    && forall j :: j in stamps ==> stamps[j] < stamps[k] || (stamps[j] == stamps[k] && k <= j)
  }

  lemma {:induction false} NewestExists(stamps: map<nat, nat>)
    requires stamps != map[]
    ensures exists k :: IsNewest(stamps, k)
    decreases |stamps|
  {
    var x :| x in stamps;
    var rest := stamps - {x};
    if rest == map[] {
      assert stamps.Keys - {x} == rest.Keys == {};
      assert forall j :: j in stamps ==> j == x || j in stamps.Keys - {x};
      assert IsNewest(stamps, x);
    } else {
      assert |rest| < |stamps| by { assert rest.Keys < stamps.Keys; SubsetSize(rest.Keys, stamps.Keys); }
      NewestExists(rest);
      var k :| IsNewest(rest, k);
      forall j | j in stamps && j != x ensures j in rest && rest[j] == stamps[j] {}
      assert IsNewest(stamps, if stamps[x] > stamps[k] || (stamps[x] == stamps[k] && x <= k) then x else k);
    }
  }

  function Newest(stamps: map<nat, nat>): (k: nat)
    requires stamps != map[]
    ensures IsNewest(stamps, k)
  {
    NewestExists(stamps);
    var k :| k in stamps && IsNewest(stamps, k);
    k
  }

  function NextRowId<T>(table: map<nat, T>): (id: nat)
    ensures id !in table
    ensures forall k :: k in table ==> k < id
  {
    if table == map[] then 1
    else
      var ids := map k | k in table :: k;
      assert forall k :: k in table ==> k in ids;
      Newest(ids) + 1
  }

  // ---- the statements of the write transaction ----------------------------------

  predicate SameAuthor(row: EventRow, pubkey: string) {
    Decode(pubkey) == Some(row.author)
  }

  /** A stored row that would hide this replaceable event. */
  predicate ReplaceableShadow(db: Db, e: Event) {
    exists r :: r in db.events && SameAuthor(db.events[r], e.pubkey) && db.events[r].kind == e.kind
      && db.events[r].createdAt >= e.createdAt
  }

  /** The join of `event` and `tag` behind a parameterized replaceable slot, by tag row. */
  function SlotRows(db: Db, pubkey: string, kind: nat, d: string): set<nat> {
    set t | t in db.tags && db.tags[t].name == "d" && db.tags[t].value == d
      && db.tags[t].eventId in db.events && SameAuthor(db.events[db.tags[t].eventId], pubkey)
      && db.events[db.tags[t].eventId].kind == kind
  }

  predicate ParamShadow(db: Db, e: Event, d: string) {
    exists t :: t in SlotRows(db, e.pubkey, e.kind, d) && db.events[db.tags[t].eventId].createdAt >= e.createdAt
  }

  predicate Shadowed(db: Db, e: Event) {
    (IsReplaceable(e) && ReplaceableShadow(db, e))
    || (DistinctParam(e).Some? && ParamShadow(db, e, DistinctParam(e).value))
  }

  predicate Bindable(e: Event) {
    e.createdAt < I64_LIMIT && e.kind < I64_LIMIT
  }

  predicate IsDuplicate(db: Db, hash: Blob) {
    exists r :: r in db.events && db.events[r].hash == hash
  }

  function NewRow(e: Event, hash: Blob, author: Blob): EventRow {
    EventRow(hash, e.createdAt, Expiration(e), e.kind, author, false, e)
  }

  predicate Searchable(tag: Tag) {
    |tag| >= 2 && SingleCharTagname(tag[0]).Some?
  }

  /** The tag table after the first `k` tags of event row `id`. */
  function InsertTags(tags: map<nat, TagRow>, id: nat, e: Event, k: nat): map<nat, TagRow>
    requires k <= |e.tags|
  {
    if k == 0 then tags
    else
      var sofar := InsertTags(tags, id, e, k - 1);
      var tag := e.tags[k - 1];
      if Searchable(tag) then
        sofar[NextRowId(sofar) := TagRow(id, tag[0], tag[1], e.kind, e.createdAt)]
      else sofar
  }

  /** DELETE FROM event, with the cascade into `tag`. */
  function Delete(db: Db, ids: set<nat>): Db {
    Db(map r | r in db.events && r !in ids :: db.events[r],
       map t | t in db.tags && db.tags[t].eventId !in ids :: db.tags[t])
  }

  /** The rows of a replaceable slot other than the newest. */
  function OlderReplaceable(db: Db, pubkey: string, kind: nat): set<nat> {
    var slot := map r | r in db.events && SameAuthor(db.events[r], pubkey) && db.events[r].kind == kind
      :: db.events[r].createdAt;
    if slot == map[] then {} else slot.Keys - {Newest(slot)}
  }

  /** The events of all joined rows of a parameterized slot after the newest joined row. */
  function OlderParam(db: Db, pubkey: string, kind: nat, d: string): set<nat> {
    var slot := map t | t in SlotRows(db, pubkey, kind, d) :: db.tags[t].createdAt;
    if slot == map[] then {} else set t | t in slot.Keys - {Newest(slot)} :: db.tags[t].eventId
  }

  /** The event hashes a deletion names: `e` values of exactly 64 hex digits, decoded. */
  function DeletionTargets(e: Event): set<Blob> {
    set v | v in TagValuesByName(e.tags, "e") && IsHex(v) && |v| == 64 :: Decode(v).value
  }

  predicate Hideable(kind: nat) {
    kind != DELETION && kind != GIFT_WRAP
  }

  function HideTargets(db: Db, e: Event): Db {
    db.(events := map r | r in db.events :: Hid(db.events[r], e))
  }

  function Hid(row: EventRow, e: Event): EventRow {
    if Hideable(row.kind) && SameAuthor(row, e.pubkey) && row.hash in DeletionTargets(e)
    then row.(hidden := true) else row
  }

  /** A deletion by the same author that already names this event, in so many characters. */
  predicate AlreadyDeleted(db: Db, e: Event) {
    exists t :: t in db.tags && db.tags[t].name == "e" && db.tags[t].kind == DELETION && db.tags[t].value == e.id
      && db.tags[t].eventId in db.events && SameAuthor(db.events[db.tags[t].eventId], e.pubkey)
  }

  function HideRow(db: Db, id: nat): Db {
    if id in db.events then db.(events := db.events[id := db.events[id].(hidden := true)]) else db
  }

  /** The event row and its tags go in. */
  function Inserted(db: Db, e: Event, hash: Blob, author: Blob): Db {
    var id := NextRowId(db.events);
    Db(db.events[id := NewRow(e, hash, author)], InsertTags(db.tags, id, e, |e.tags|))
  }

  /** Older events of the same slot go out. */
  function Swept(db: Db, e: Event): Db {
    var db := if IsReplaceable(e) then Delete(db, OlderReplaceable(db, e.pubkey, e.kind)) else db;
    match DistinctParam(e)
    case None => db
    case Some(d) => Delete(db, OlderParam(db, e.pubkey, e.kind, d))
  }

  /** Deletions take effect, in whichever order the two events arrived. */
  function Hidden(db: Db, e: Event, id: nat): Persisted {
    if e.kind == DELETION then Persisted(HideTargets(db, e), Wrote(1))
    else if e.kind != GIFT_WRAP && AlreadyDeleted(db, e) then Persisted(HideRow(db, id), Wrote(0))
    else Persisted(db, Wrote(1))
  }

  /** `persist_event` as a function of the two tables. */
  function Persist(db: Db, e: Event): Persisted {
    if Bindable(e) && Shadowed(db, e) then Persisted(db, Wrote(0))
    else if !Bindable(e) || (Expiration(e).Some? && Expiration(e).value >= I64_LIMIT) then Persisted(db, Failed)
    else
      match (Decode(e.id), Decode(e.pubkey))
      case (Some(hash), Some(author)) =>
        if IsDuplicate(db, hash) then Persisted(db, Wrote(0))
        else Hidden(Swept(Inserted(db, e, hash, author), e), e, NextRowId(db.events))
      case _ => Persisted(db, Wrote(0))  // NOT NULL columns: OR IGNORE skips the row
  }

  function Expired(db: Db, now: nat): set<nat> {
    set r | r in db.events && db.events[r].expiresAt.Some? && db.events[r].expiresAt.value <= now
  }

  function Expire(db: Db, now: nat): Db {
    Delete(db, Expired(db, now))
  }

  // ---- runs -----------------------------------------------------------------

  datatype Op = PersistOp(e: Event) | ExpireOp(now: nat)

  function Apply(db: Db, op: Op): Db {
    match op
    case PersistOp(e) => Persist(db, e).db
    case ExpireOp(now) => Expire(db, now)
  }

  function Run(db: Db, ops: seq<Op>): Db {
    if ops == [] then db else Apply(Run(db, ops[..|ops| - 1]), ops[|ops| - 1])
  }

  lemma {:induction false} RunConcat(db: Db, a: seq<Op>, b: seq<Op>)
    ensures Run(db, a + b) == Run(Run(db, a), b)
  {
    if b == [] {
      assert a + b == a;
    } else {
      var ops := a + b;
      var front, op := b[..|b| - 1], b[|b| - 1];
      RunConcat(db, a, front);
      assert ops[..|ops| - 1] == a + front && ops[|ops| - 1] == op;
    }
  }

  lemma RunOne(db: Db, op: Op)
    ensures Run(db, [op]) == Apply(db, op)
  {
  }

  // ---- the repository object --------------------------------------------------

  class SqliteRepo {
    var events: map<nat, EventRow>
    var tags: map<nat, TagRow>

    function Tables(): Db
      reads this
    {
      Db(events, tags)
    }

    constructor ()
      ensures Tables() == EMPTY
    {
      events, tags := map[], map[];
    }

    /** The statements of the transaction, in their order. */
    method PersistEvent(e: Event) returns (outcome: Outcome)
      modifies this
      ensures Tables() == Persist(old(Tables()), e).db
      ensures outcome == Persist(old(Tables()), e).outcome
    {
      if Bindable(e) {
        if IsReplaceable(e) && ReplaceableShadow(Tables(), e) {
          return Wrote(0);
        }
        if DistinctParam(e).Some? && ParamShadow(Tables(), e, DistinctParam(e).value) {
          return Wrote(0);
        }
      }
      if !Bindable(e) || (Expiration(e).Some? && Expiration(e).value >= I64_LIMIT) {
        return Failed;
      }
      var hash, author := Decode(e.id), Decode(e.pubkey);
      if hash == None || author == None || IsDuplicate(Tables(), hash.value) {
        return Wrote(0);
      }
      var id := NextRowId(events);
      events := events[id := NewRow(e, hash.value, author.value)];
      for k := 0 to |e.tags|
        invariant events == old(events)[id := NewRow(e, hash.value, author.value)]
        invariant tags == InsertTags(old(tags), id, e, k)
      {
        var tag := e.tags[k];
        if |tag| >= 2 {
          if SingleCharTagname(tag[0]).Some? {
            tags := tags[NextRowId(tags) := TagRow(id, tag[0], tag[1], e.kind, e.createdAt)];
          }
        }
      }
      assert Tables() == Inserted(old(Tables()), e, hash.value, author.value);
      if IsReplaceable(e) {
        DeleteEvents(OlderReplaceable(Tables(), e.pubkey, e.kind));
      }
      if DistinctParam(e).Some? {
        DeleteEvents(OlderParam(Tables(), e.pubkey, e.kind, DistinctParam(e).value));
      }
      assert Tables() == Swept(Inserted(old(Tables()), e, hash.value, author.value), e);
      if e.kind == DELETION {
        events := HideTargets(Tables(), e).events;
        return Wrote(1);
      } else if e.kind != GIFT_WRAP {
        if AlreadyDeleted(Tables(), e) {
          if id in events {
            events := events[id := events[id].(hidden := true)];
          }
          return Wrote(0);
        }
      }
      return Wrote(1);
    }

    method DeleteEvents(ids: set<nat>)
      modifies this
      ensures Tables() == Delete(old(Tables()), ids)
    {
      tags := map t | t in tags && tags[t].eventId !in ids :: tags[t];
      events := map r | r in events && r !in ids :: events[r];
    }

    method DeleteExpired(now: nat) returns (count: nat)
      modifies this
      ensures Tables() == Expire(old(Tables()), now)
      ensures count == |Expired(old(Tables()), now)|
      ensures forall r :: r in events <==>
        r in old(events) && (old(events)[r].expiresAt.None? || now < old(events)[r].expiresAt.value)
      ensures forall r :: r in events ==> events[r] == old(events)[r]
    {
      var doomed := Expired(Tables(), now);
      count := |doomed|;
      DeleteEvents(doomed);
    }
  }
}
