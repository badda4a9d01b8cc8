/** Submissions with several `d` tags: each clause of the condition in `AnyOrder` at work. */
module AnyOrderEdges {
  import opened Wrappers
  import opened Hex
  import opened Events
  import opened Slots
  import opened Refinement
  import opened Convergence
  import opened StoreEdges
  import opened Occupancy
  import opened AnyOrder
  import opened AnyOrderNeeds

  lemma PairSubmitted(x: Event, y: Event)
    requires Checked(x) && Checked(y) && x.id != y.id
    ensures Submitted([x, y]) && forall e :: e in EventSet([x, y]) <==> e == x || e == y
  {
  }

  /** Any event that repeats its `d` value and any older event in its slot: the order matters. */
  lemma RepeatMatters(x: Event, y: Event)
    requires Checked(x) && Checked(y) && x.id != y.id && Stays(x) && Storable(y) && RepeatsParam(y) && Ousts(y, x)
    ensures Submitted([x, y]) && !OrderIndependent([x, y])
  {
    var s := EventSet([x, y]);
    PairSubmitted(x, y);
    AnyOrderIff([x, y]);
    assert x in s && y in s && !Unbeaten(s, x);
    assert forall f :: !Unbeaten(s, f);
  }

  /** Any event and any newer one that holds a slot it merely sits in: the order matters. */
  lemma SecondTagMatters(x: Event, y: Event)
    requires Checked(x) && Checked(y) && x.id != y.id && Stays(x) && Stays(y) && Ousts(y, x) && !Bars(y, x)
    ensures Submitted([x, y]) && !OrderIndependent([x, y])
  {
    var s := EventSet([x, y]);
    PairSubmitted(x, y);
    AnyOrderIff([x, y]);
    assert x in s && y in s && !Unbeaten(s, x);
    assert forall f :: Unbeaten(s, f) ==> f == y;
    assert !Ousts(x, x);
  }

  function D(v: string): Tag {
    ["d", v]
  }

  lemma SampleChecked(c: char, createdAt: nat, tags: seq<Tag>)
    requires IsLowerDigit(c) && createdAt < 100 && forall i :: 0 <= i < |tags| ==> tags[i] != [] && tags[i][0] == "d"
    ensures Checked(Sample(c, 30000, createdAt, tags)) && Storable(Sample(c, 30000, createdAt, tags))
  {
    var e := Sample(c, 30000, createdAt, tags);
    assert IsKey(e.id) && IsHex(e.pubkey);
    NoExpirationTag(tags);
  }

  lemma {:induction false} NoExpirationTag(tags: seq<Tag>)
    requires forall i :: 0 <= i < |tags| ==> tags[i] != [] && tags[i][0] == "d"
    ensures FirstValue(tags, "expiration") == None
  {
    if tags != [] {
      assert tags[0][0] == "d" && |"d"| != |"expiration"|;
      NoExpirationTag(tags[1..]);
    }
  }

  lemma CountOne(v: string, w: string)
    ensures CountTag([D(v)], "d", w) == if v == w then 1 else 0
  {
    assert [D(v)][..0] == [] && D(v)[0] == "d" && D(v)[1] == v;
    assert CountTag([D(v)][..0], "d", w) == 0;
  }

  lemma TwoTags(e: Event, v: string, w: string)
    requires IsParamReplaceable(e) && e.tags == [D(v), D(w)] && v != w
    ensures DistinctParam(e) == Some(v) && !RepeatsParam(e) && CountTag(e.tags, "d", w) == 1
    ensures forall u :: HasTag(e.tags, "d", u) <==> u == v || u == w
  {
    assert e.tags[0] == D(v) && e.tags[1] == D(w);
    assert e.tags[..1] == [D(v)];
    CountOne(v, v);
    CountOne(v, w);
  }

  lemma OneTag(e: Event, v: string)
    requires IsParamReplaceable(e) && e.tags == [D(v)]
    ensures DistinctParam(e) == Some(v) && !RepeatsParam(e)
    ensures forall u :: HasTag(e.tags, "d", u) <==> u == v
  {
    assert e.tags[0] == D(v);
    CountOne(v, v);
  }

  /** Two rows in one slot: the second event states the slot's value in its second `d` tag. */
  lemma TwoInOneSlot()
    ensures
      var b, a := Sample('b', 30000, 1, [D("y")]), Sample('a', 30000, 1, [D("x"), D("y")]);
      Submitted([b, a]) && b in V([b, a]) && a in V([b, a]) && Sits(b, LookupSlot(b)) && Sits(a, LookupSlot(b))
  {
    var b, a := Sample('b', 30000, 1, [D("y")]), Sample('a', 30000, 1, [D("x"), D("y")]);
    assert b.id[0] != a.id[0] && "x"[0] != "y"[0];
    SampleChecked('b', 1, [D("y")]);
    SampleChecked('a', 1, [D("x"), D("y")]);
    OneTag(b, "y");
    TwoTags(a, "x", "y");
    PairSubmitted(b, a);
    BothLetIn(b, a);
  }

  /** An event whose own slot is free comes in beside one whose slot it also states. */
  lemma BothLetIn(b: Event, a: Event)
    requires Submitted([b, a]) && Stays(b) && Stays(a) && a != b && !Sits(b, LookupSlot(a))
    ensures b in V([b, a]) && a in V([b, a])
  {
    assert [b, a][..1] == [b];
    SubmittedFront([b, a], 1);
    First1(b);
    Then([b], a, [b, a]);
  }

  /** No value in its first `d` tag: it looks up the empty value and sits only under its second. */
  lemma ValuelessFirst(e: Event, v: string)
    requires IsParamReplaceable(e) && e.tags == [["d"], D(v)] && v != ""
    ensures DistinctParam(e) == Some("") && !RepeatsParam(e) && !Owns(e)
    ensures forall u :: HasTag(e.tags, "d", u) <==> u == v
  {
    assert e.tags[0] == ["d"] && e.tags[1] == D(v);
    CountTagPositive(e.tags, "d", "");
  }

  /** Three events of one author and kind, and where they sit. */
  ghost predicate Three(u: Event, z: Event, x: Event) {
    u.kind == z.kind == x.kind == 30000 && u.pubkey == z.pubkey == x.pubkey
    && u.createdAt == 10 && z.createdAt == 7 && x.createdAt == 5
    && DistinctParam(u) == Some("") && DistinctParam(z) == Some("") && DistinctParam(x) == Some("y")
    && (forall d :: HasTag(u.tags, "d", d) <==> d == "y") && (forall d :: HasTag(z.tags, "d", d) <==> d == "")
    && (forall d :: HasTag(x.tags, "d", d) <==> d == "y" || d == "")
    && CountTag(x.tags, "d", "") == 1 && Stays(u) && Stays(z) && Stays(x)
  }

  /** `u` turns `x` away, `z` removes it, and between them `u` squeezes it out; nothing else happens. */
  lemma ThreeMeet(u: Event, z: Event, x: Event)
    requires Three(u, z, x)
    ensures Bars(u, x) && Ousts(z, x) && Squeezes(u, z, x) && !Ousts(u, x) && !Bars(z, x)
    ensures !Bars(z, u) && !Bars(x, u) && !Ousts(u, u) && !Ousts(z, u) && !Ousts(x, u)
    ensures !Bars(u, z) && !Bars(x, z) && !Ousts(u, z) && !Ousts(z, z) && !Ousts(x, z)
  {
    CountTagPositive(z.tags, "d", "");
    OnceEach(z);
    assert Owns(z) && Owns(x) && !Owns(u);
  }

  lemma ThreeSqueeze(u: Event, z: Event, x: Event, a: Event, b: Event)
    requires Three(u, z, x) && (a == u || a == z || a == x) && (b == u || b == z || b == x)
    ensures !Squeezes(a, b, u) && !Squeezes(a, b, z)
  {
  }

  /** An event that does not repeat its `d` value sits once in the slot of that value. */
  lemma OnceEach(z: Event)
    requires IsParamReplaceable(z) && !RepeatsParam(z)
    ensures !SitsTwice(z, LookupSlot(z))
  {
  }

  lemma ThreeUnbeaten(s: set<Event>, u: Event, z: Event, x: Event)
    requires Three(u, z, x) && s == {u, z, x}
    ensures Unbeaten(s, u) && Unbeaten(s, z) && !Unbeaten(s, x) && Beaten(s, x)
    ensures forall f :: !BeatenBy(s, f, x)
  {
    ThreeMeet(u, z, x);
    forall a, b | a in s && b in s ensures !Squeezes(a, b, u) && !Squeezes(a, b, z) {
      ThreeSqueeze(u, z, x, a, b);
    }
    assert u in s && z in s && x in s;
    assert BeatenByTwo(s, u, z, x);
  }

  /** Beaten by two events together and by neither alone: still the order does not matter. */
  lemma ThreeInAnyOrder()
    ensures
      var u, z, x := Sample('a', 30000, 10, [["d"], D("y")]), Sample('b', 30000, 7, [D("")]),
        Sample('c', 30000, 5, [D("y"), D("")]);
      Submitted([u, z, x]) && OrderIndependent([u, z, x])
      && !Unbeaten(EventSet([u, z, x]), x) && forall f :: !BeatenBy(EventSet([u, z, x]), f, x)
  {
    var none: Tag := ["d"];
    var u, z, x := Sample('a', 30000, 10, [none, D("y")]), Sample('b', 30000, 7, [D("")]),
      Sample('c', 30000, 5, [D("y"), D("")]);
    assert u.id[0] != z.id[0] && z.id[0] != x.id[0] && u.id[0] != x.id[0];
    SampleChecked('a', 10, [none, D("y")]);
    SampleChecked('b', 7, [D("")]);
    SampleChecked('c', 5, [D("y"), D("")]);
    SamplesAreThree(u, z, x);
    ThreeSubmitted(u, z, x);
    ThreeSettled([u, z, x], u, z, x);
  }

  lemma SamplesAreThree(u: Event, z: Event, x: Event)
    requires u.kind == z.kind == x.kind == 30000 && u.pubkey == z.pubkey == x.pubkey
    requires u.createdAt == 10 && z.createdAt == 7 && x.createdAt == 5 && Storable(u) && Storable(z) && Storable(x)
    requires u.tags == [["d"], D("y")] && z.tags == [D("")] && x.tags == [D("y"), D("")]
    ensures Three(u, z, x)
  {
    ValuelessFirst(u, "y");
    OneTag(z, "");
    TwoTags(x, "y", "");
  }

  lemma ThreeSubmitted(u: Event, z: Event, x: Event)
    requires Checked(u) && Checked(z) && Checked(x) && u.id != z.id && z.id != x.id && u.id != x.id
    ensures Submitted([u, z, x]) && EventSet([u, z, x]) == {u, z, x}
  {
    assert [u, z, x][0] == u && [u, z, x][1] == z && [u, z, x][2] == x;
  }

  lemma AllSettled(s: set<Event>, u: Event, z: Event, x: Event)
    requires s == {u, z, x} && Unbeaten(s, u) && Unbeaten(s, z) && Beaten(s, x)
    ensures Settled(s)
  {
  }

  lemma ThreeKinds(s: set<Event>, u: Event, z: Event, x: Event)
    requires Three(u, z, x) && s == {u, z, x}
    ensures forall k :: k in s ==> k.kind == 30000
  {
  }

  lemma NoneNamed(s: set<Event>)
    requires forall k :: k in s ==> k.kind == 30000
    ensures NamedAlike(s)
  {
  }

  lemma SettledIsIndependent(evs: seq<Event>)
    requires Submitted(evs) && Settled(EventSet(evs)) && NamedAlike(EventSet(evs))
    ensures OrderIndependent(evs)
  {
    AnyOrderIff(evs);
  }

  lemma ThreeSettled(evs: seq<Event>, u: Event, z: Event, x: Event)
    requires Three(u, z, x) && Submitted(evs) && EventSet(evs) == {u, z, x}
    ensures OrderIndependent(evs) && !Unbeaten(EventSet(evs), x) && forall f :: !BeatenBy(EventSet(evs), f, x)
  {
    ThreeUnbeaten(EventSet(evs), u, z, x);
    AllSettled(EventSet(evs), u, z, x);
    ThreeKinds(EventSet(evs), u, z, x);
    NoneNamed(EventSet(evs));
    SettledIsIndependent(evs);
  }
}
