/** What expires and when, in terms of the tags (`expiration` in src/event.rs, the sweep in src/repo/sqlite.rs). */
module ExpiryRules {
  import opened Wrappers
  import opened Events
  import opened Store
  import opened StoreInvariants
  import opened QueryMeaning
  import Text

  // ---- the expiry time of an event -------------------------------------------------------

  /** The first tag named `expiration` is at this place. */
  predicate FirstNamed(tags: seq<Tag>, i: nat) {
    i < |tags| && tags[i] != [] && tags[i][0] == "expiration"
    && forall j :: 0 <= j < i ==> tags[j] == [] || tags[j][0] != "expiration"
  }

  /** The value of that tag is the number `t`. */
  predicate ExpiresAt(e: Event, t: nat) {
    exists i :: 0 <= i < |e.tags| && FirstNamed(e.tags, i) && |e.tags[i]| > 1 && Text.ParseU64(e.tags[i][1]) == Some(t)
  }

  lemma {:induction false} FirstValueMeans(tags: seq<Tag>, v: string)
    ensures FirstValue(tags, "expiration") == Some(v) <==>
      exists i :: 0 <= i < |tags| && FirstNamed(tags, i) && v == if |tags[i]| > 1 then tags[i][1] else ""
  {
    if tags != [] {
      if tags[0] != [] && tags[0][0] == "expiration" {
        assert FirstNamed(tags, 0);
      } else {
        FirstValueMeans(tags[1..], v);
        forall i | 0 < i < |tags| ensures FirstNamed(tags, i) <==> FirstNamed(tags[1..], i - 1) {
          FirstNamedLater(tags, i);
        }
        if i :| 0 <= i < |tags| && FirstNamed(tags, i) && v == if |tags[i]| > 1 then tags[i][1] else "" {
          assert FirstNamed(tags[1..], i - 1) && tags[1..][i - 1] == tags[i];
        }
        var rest := tags[1..];
        if k :| 0 <= k < |rest| && FirstNamed(rest, k) && v == if |rest[k]| > 1 then rest[k][1] else "" {
          assert FirstNamed(tags, k + 1) && rest[k] == tags[k + 1];
        }
      }
    }
  }

  lemma FirstNamedLater(tags: seq<Tag>, i: nat)
    requires 0 < i < |tags| && (tags[0] == [] || tags[0][0] != "expiration")
    ensures FirstNamed(tags, i) <==> FirstNamed(tags[1..], i - 1)
  {
    if FirstNamed(tags[1..], i - 1) {
      forall j | 0 <= j < i ensures tags[j] == [] || tags[j][0] != "expiration" {
        if j > 0 { assert tags[1..][j - 1] == tags[j]; }
      }
    }
  }

  /** The number the relay takes for the expiry time is the one in the first such tag. */
  lemma ExpirationMeans(e: Event, t: nat)
    ensures Expiration(e) == Some(t) <==> ExpiresAt(e, t)
  {
    if Expiration(e) == Some(t) {
      FirstValueMeans(e.tags, FirstValue(e.tags, "expiration").value);
      assert Text.ParseU64("") == None;
    }
    if ExpiresAt(e, t) {
      var i :| 0 <= i < |e.tags| && FirstNamed(e.tags, i) && |e.tags[i]| > 1 && Text.ParseU64(e.tags[i][1]) == Some(t);
      FirstValueMeans(e.tags, e.tags[i][1]);
    }
  }

  ghost predicate UnexpiredAt(e: Event, now: nat) {
    forall t: nat :: ExpiresAt(e, t) ==> now < t
  }

  lemma UnexpiredMeans(e: Event, now: nat)
    ensures UnexpiredAt(e, now) <==> Expiration(e).None? || now < Expiration(e).value
  {
    if Expiration(e).Some? { ExpirationMeans(e, Expiration(e).value); }
    forall t: nat | ExpiresAt(e, t) ensures Expiration(e) == Some(t) { ExpirationMeans(e, t); }
  }

  // ---- the sweep --------------------------------------------------------------------------

  /** Swept at `now`, a row stays exactly when its event expires later or never; and it stays as it was. */
  lemma SweepExactly(ops: seq<Op>, now: nat, r: nat)
    ensures
      var before, after := Run(EMPTY, ops), Run(EMPTY, ops + [ExpireOp(now)]);
      (r in after.events <==> r in before.events && UnexpiredAt(before.events[r].content, now))
      && (r in after.events ==> after.events[r] == before.events[r])
  {
    var before := Run(EMPTY, ops);
    RunConcat(EMPTY, ops, [ExpireOp(now)]);
    RunOne(before, ExpireOp(now));
    RunMirror(ops);
    if r in before.events {
      assert RowFaithful(before.events[r]);
      UnexpiredMeans(before.events[r].content, now);
    }
  }

  /** The count reported is the number of rows that went. */
  lemma SweepCounts(db: Db, now: nat)
    ensures |Expire(db, now).events| + |Expired(db, now)| == |db.events|
  {
    assert db.events.Keys == Expire(db, now).events.Keys + Expired(db, now);
  }

  /** Right after a sweep every stored event is unexpired, and every unhidden one visible to queries. */
  lemma SweptIsVisible(ops: seq<Op>, now: nat, r: nat)
    requires r in Run(EMPTY, ops + [ExpireOp(now)]).events
    ensures
      var row := Run(EMPTY, ops + [ExpireOp(now)]).events[r];
      UnexpiredAt(row.content, now) && (!row.hidden ==> Visible(row, now))
  {
    var all := ops + [ExpireOp(now)];
    SweepExactly(ops, now, r);
    RunMirror(all);
    var row := Run(EMPTY, all).events[r];
    assert RowFaithful(row);
    UnexpiredMeans(row.content, now);
  }
}
