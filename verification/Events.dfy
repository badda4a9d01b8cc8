/** Nostr events: classification, tags and the tag index (src/event.rs). */
module Events {
  import opened Wrappers
  import Text

  type Tag = seq<string>

  /** The serialised fields of an event. */
  datatype Event = Event(
    id: string, pubkey: string, createdAt: nat, kind: nat, tags: seq<Tag>, content: string, sig: string)

  type TagIndex = map<char, set<string>>

  /** An event in memory, with the two fields that are computed and never serialised. */
  datatype LiveEvent = LiveEvent(event: Event, delegatedBy: Option<string>, tagIdx: Option<TagIndex>)

  // ---- classification by kind -----------------------------------------------

  const DELETION := 5
  const GIFT_WRAP := 1059

  predicate IsEphemeral(e: Event) {
    20000 <= e.kind < 30000
  }

  predicate IsReplaceable(e: Event) {
    e.kind == 0 || e.kind == 3 || e.kind == 41 || 10000 <= e.kind < 20000
  }

  predicate IsParamKind(kind: nat) {
    30000 <= kind < 40000
  }

  predicate IsParamReplaceable(e: Event) {
    IsParamKind(e.kind)
  }

  // ---- tags -----------------------------------------------------------------

  function SingleCharTagname(name: string): Option<char> {
    if |name| == 1 then Some(name[0]) else None
  }

  /** The value of the first tag with this name; a tag that has none counts as the empty string. */
  function FirstValue(tags: seq<Tag>, name: string): Option<string> {
    if tags == [] then None
    else if tags[0] != [] && tags[0][0] == name then
      Some(if |tags[0]| > 1 then tags[0][1] else "")
    else FirstValue(tags[1..], name)
  }

  function Expiration(e: Event): Option<nat> {
    match FirstValue(e.tags, "expiration")
    case None => None
    case Some(v) => Text.ParseU64(v)
  }

  function DistinctParam(e: Event): Option<string> {
    if IsParamReplaceable(e) then
      match FirstValue(e.tags, "d")
      case None => Some("")
      case Some(v) => Some(v)
    else None
  }

  function TagValuesByName(tags: seq<Tag>, name: string): seq<string> {
    if tags == [] then []
    else
      (if |tags[0]| > 1 && tags[0][0] == name then [tags[0][1]] else []) + TagValuesByName(tags[1..], name)
  }

  /** Some tag carries this name and this value. */
  predicate HasTag(tags: seq<Tag>, name: string, value: string) {
    exists i :: 0 <= i < |tags| && |tags[i]| > 1 && tags[i][0] == name && tags[i][1] == value
  }

  /** How many tags carry this name and this value. */
  function CountTag(tags: seq<Tag>, name: string, value: string): nat {
    if tags == [] then 0
    else
      var last := tags[|tags| - 1];
      CountTag(tags[..|tags| - 1], name, value)
      + if |last| > 1 && last[0] == name && last[1] == value then 1 else 0
  }

  lemma {:induction false} CountTagPositive(tags: seq<Tag>, name: string, value: string)
    ensures CountTag(tags, name, value) > 0 <==> HasTag(tags, name, value)
  {
    if tags != [] {
      var front, last := tags[..|tags| - 1], tags[|tags| - 1];
      CountTagPositive(front, name, value);
      if HasTag(tags, name, value) {
        var i :| 0 <= i < |tags| && |tags[i]| > 1 && tags[i][0] == name && tags[i][1] == value;
        if i < |front| { assert front[i] == tags[i]; }
      }
      if HasTag(front, name, value) {
        var i :| 0 <= i < |front| && |front[i]| > 1 && front[i][0] == name && front[i][1] == value;
        assert tags[i] == front[i];
      }
    }
  }

  lemma {:induction false} TagValuesByNameMember(tags: seq<Tag>, name: string, value: string)
    ensures value in TagValuesByName(tags, name) <==> HasTag(tags, name, value)
  {
    if tags != [] {
      TagValuesByNameMember(tags[1..], name, value);
      if HasTag(tags, name, value) {
        var i :| 0 <= i < |tags| && |tags[i]| > 1 && tags[i][0] == name && tags[i][1] == value;
        if i > 0 { assert tags[1..][i - 1] == tags[i]; }
      }
      if HasTag(tags[1..], name, value) {
        var i :| 0 <= i < |tags[1..]| && |tags[1..][i]| > 1 && tags[1..][i][0] == name && tags[1..][i][1] == value;
        assert tags[i + 1] == tags[1..][i];
      }
    }
  }

  predicate IsNamed(tag: Tag, name: string) {
    tag != [] && tag[0] == name
  }

  /** At most one tag with this name, valued or not. */
  predicate AtMostOneTag(tags: seq<Tag>, name: string) {
    forall i, j :: 0 <= i < |tags| && 0 <= j < |tags| && IsNamed(tags[i], name) && IsNamed(tags[j], name) ==> i == j
  }

  /** With at most one such tag, `FirstValue` is the value in the tag, and no name and value repeat. */
  lemma {:induction false} FirstValueUnique(tags: seq<Tag>, name: string, value: string)
    requires AtMostOneTag(tags, name)
    ensures HasTag(tags, name, value) ==> FirstValue(tags, name) == Some(value)
  {
    if HasTag(tags, name, value) {
      var i :| 0 <= i < |tags| && |tags[i]| > 1 && tags[i][0] == name && tags[i][1] == value;
      assert IsNamed(tags[i], name);
      FirstValueAt(tags, name, i);
    }
  }

  lemma {:induction false} FirstValueAt(tags: seq<Tag>, name: string, i: nat)
    requires i < |tags| && |tags[i]| > 1 && tags[i][0] == name
    requires forall j :: 0 <= j < i ==> !IsNamed(tags[j], name)
    ensures FirstValue(tags, name) == Some(tags[i][1])
  {
    if i > 0 {
      assert tags[1..][i - 1] == tags[i];
      FirstValueAt(tags[1..], name, i - 1);
    }
  }

  lemma {:induction false} CountTagAtMostOne(tags: seq<Tag>, name: string, value: string)
    requires AtMostOneTag(tags, name)
    ensures CountTag(tags, name, value) <= 1
  {
    if tags != [] {
      var n := |tags| - 1;
      var front := tags[..n];
      assert AtMostOneTag(front, name) by {
        forall i, j | 0 <= i < n && 0 <= j < n && IsNamed(front[i], name) && IsNamed(front[j], name)
          ensures i == j
        {
          assert tags[i] == front[i] && tags[j] == front[j];
        }
      }
      CountTagAtMostOne(front, name, value);
      CountTagPositive(front, name, value);
      if HasTag(front, name, value) {
        var i :| 0 <= i < n && |front[i]| > 1 && front[i][0] == name && front[i][1] == value;
        assert tags[i] == front[i] && IsNamed(tags[i], name);
        assert !IsNamed(tags[n], name);
      }
    }
  }

  // ---- the tag index --------------------------------------------------------

  /** The index after one more tag. */
  function AddToIndex(idx: TagIndex, t: Tag): TagIndex {
    if |t| > 1 && SingleCharTagname(t[0]).Some? then
      var c := t[0][0];
      idx[c := (if c in idx then idx[c] else {}) + {t[1]}]
    else idx
  }

  function IndexOf(tags: seq<Tag>): TagIndex {
    if tags == [] then map[]
    else AddToIndex(IndexOf(tags[..|tags| - 1]), tags[|tags| - 1])
  }

  /** The loop of `build_index`; with no tags at all the index stays as it was. */
  method BuildIndex(e: LiveEvent) returns (r: LiveEvent)
    ensures r == if e.event.tags == [] then e else e.(tagIdx := Some(IndexOf(e.event.tags)))
  {
    var tags := e.event.tags;
    if tags == [] {
      return e;
    }
    var idx: TagIndex := map[];
    for i := 0 to |tags|
      invariant idx == IndexOf(tags[..i])
    {
      assert tags[..i + 1][..i] == tags[..i];
      var t := tags[i];
      if |t| > 1 {
        var c := SingleCharTagname(t[0]);
        if c.Some? {
          if c.value !in idx {
            idx := idx[c.value := {}];
          }
          idx := idx[c.value := idx[c.value] + {t[1]}];
        }
      }
    }
    assert tags[..|tags|] == tags;
    r := e.(tagIdx := Some(idx));
  }

  /** The index holds a value under a character exactly when some tag says so, and no empty sets. */
  lemma {:induction false} IndexOfMeaning(tags: seq<Tag>, c: char)
    ensures c in IndexOf(tags) <==> exists v :: HasTag(tags, [c], v)
    ensures forall v :: c in IndexOf(tags) && v in IndexOf(tags)[c] <==> HasTag(tags, [c], v)
  {
    if tags != [] {
      var n := |tags| - 1;
      var front, t := tags[..n], tags[n];
      IndexOfMeaning(front, c);
      forall v
        ensures HasTag(tags, [c], v) <==> HasTag(front, [c], v) || (|t| > 1 && t[0] == [c] && t[1] == v)
      {
        HasTagSnoc(front, t, [c], v);
        assert front + [t] == tags;
      }
      if |t| > 1 && t[0] == [c] {
        assert HasTag(tags, [c], t[1]);
      } else {
        assert c in IndexOf(tags) <==> c in IndexOf(front);
        if v :| HasTag(front, [c], v) { assert HasTag(tags, [c], v); }
      }
    }
  }

  lemma HasTagSnoc(front: seq<Tag>, t: Tag, name: string, v: string)
    ensures HasTag(front + [t], name, v) <==> HasTag(front, name, v) || (|t| > 1 && t[0] == name && t[1] == v)
  {
    var tags := front + [t];
    if HasTag(front, name, v) {
      var i :| 0 <= i < |front| && |front[i]| > 1 && front[i][0] == name && front[i][1] == v;
      assert tags[i] == front[i];
    }
    if |t| > 1 && t[0] == name && t[1] == v {
      assert tags[|front|] == t;
    }
  }
}
