/** The inspector's table of remote objects: ids by object, objects by id, and object groups. */
module RemoteObjects {
  import opened Wrappers

  // --- Ids ---

  function Digit(n: nat): char
    requires n < 10
  {
    "0123456789"[n]
  }

  function Decimal(n: nat): (s: string)
    ensures |s| > 0 && (|s| == 1 <==> n < 10)
  {
    if n < 10 then [Digit(n)] else Decimal(n / 10) + [Digit(n % 10)]
  }

  function Id(group: string, n: nat): string { group + ":" + Decimal(n) }

  /** The part before the last colon. */
  function GroupOf(id: string): string {
    if id == [] then []
    else if id[|id| - 1] == ':' then id[..|id| - 1]
    else GroupOf(id[..|id| - 1])
  }

  lemma {:induction false} DecimalInjective(n: nat, k: nat)
    requires Decimal(n) == Decimal(k)
    ensures n == k
  {
    var d, e := Decimal(n), Decimal(k);
    assert d[|d| - 1] == Digit(n % 10) && e[|e| - 1] == Digit(k % 10);
    if n >= 10 {
      assert d[..|d| - 1] == Decimal(n / 10) && e[..|e| - 1] == Decimal(k / 10);
      DecimalInjective(n / 10, k / 10);
    }
  }

  lemma {:induction false} GroupOfDigits(prefix: string, n: nat)
    ensures GroupOf(prefix + Decimal(n)) == GroupOf(prefix)
  {
    var id := prefix + Decimal(n);
    var last := id[|id| - 1];
    assert last == Digit(n % 10);
    assert last != ':';
    if n < 10 {
      assert id[..|id| - 1] == prefix;
    } else {
      assert id[..|id| - 1] == prefix + Decimal(n / 10);
      GroupOfDigits(prefix, n / 10);
    }
  }

  /** An id tells its group and its number, whatever characters the group has. */
  lemma IdInjective(g: string, n: nat, h: string, k: nat)
    ensures GroupOf(Id(g, n)) == g
    ensures Id(g, n) == Id(h, k) ==> g == h && n == k
  {
    GroupOfDigits(g + ":", n);
    GroupOfDigits(h + ":", k);
    assert (g + ":")[..|g|] == g && (h + ":")[..|h|] == h;
    if Id(g, n) == Id(h, k) {
      assert Id(g, n)[|g| + 1..] == Decimal(n) && Id(h, k)[|h| + 1..] == Decimal(k);
      DecimalInjective(n, k);
    }
  }

  // --- The table ---

  type Object = nat

  datatype Table = Table(idToObject: map<string, Object>, objectToId: map<Object, string>, counter: nat)

  const EMPTY := Table(map[], map[], 1)

  function Intern(t: Table, o: Object, group: string): Table {
    if o in t.objectToId then t
    else
      var id := Id(group, t.counter);
      Table(t.idToObject[id := o], t.objectToId[o := id], t.counter + 1)
  }

  function Release(t: Table, id: string): Table {
    if id in t.idToObject then t.(idToObject := t.idToObject - {id}, objectToId := t.objectToId - {t.idToObject[id]})
    else t
  }

  /** Every id that starts with the name of the group goes. */
  function ReleaseGroup(t: Table, group: string): Table {
    Without(t, Starting(t.idToObject.Keys, group))
  }

  function Without(t: Table, ids: set<string>): Table {
    t.(idToObject := t.idToObject - ids, objectToId := t.objectToId - Named(t.idToObject, ids))
  }

  /** Taking out one id more, as the loop does. */
  lemma WithoutOneMore(t: Table, ids: set<string>, id: string)
    requires id in t.idToObject && id !in ids
    ensures var w := Without(t, ids);
            && id in w.idToObject
            && Without(t, ids + {id})
                 == Table(w.idToObject - {id}, w.objectToId - {w.idToObject[id]}, t.counter)
  {
    hide Named;
    NamedOneMore(t.idToObject, ids, id);
    var w := Without(t, ids);
    assert t.idToObject - (ids + {id}) == w.idToObject - {id};
    assert t.objectToId - (Named(t.idToObject, ids) + {t.idToObject[id]}) == w.objectToId - {w.idToObject[id]};
  }

  function Starting(ids: set<string>, group: string): set<string> {
    set id | id in ids && group <= id
  }

  function Named(m: map<string, Object>, ids: set<string>): set<Object> {
    set id | id in ids && id in m :: m[id]
  }

  lemma StartingOneMore(ids: set<string>, id: string, group: string)
    ensures Starting(ids + {id}, group) == Starting(ids, group) + if group <= id then {id} else {}
  {
  }

  lemma StartingWithin(ids: set<string>, group: string)
    ensures Starting(ids, group) <= ids
  {
  }

  lemma NothingDone(t: Table, group: string)
    ensures var keys := t.idToObject.Keys; Without(t, Starting(keys - keys, group)) == t
  {
    assert Starting(t.idToObject.Keys - t.idToObject.Keys, group) == {};
    assert Named(t.idToObject, {}) == {};
  }

  /** One round of the loop of releaseObjectGroup. */
  lemma DropOne(t: Table, keys: set<string>, left: set<string>, id: string, group: string)
    requires keys == t.idToObject.Keys && left <= keys && id in left
    ensures var w := Without(t, Starting(keys - left, group));
            var v := Without(t, Starting(keys - (left - {id}), group));
            if group <= id then
              && id in w.idToObject
              && v == Table(w.idToObject - {id}, w.objectToId - {w.idToObject[id]}, w.counter)
            else v == w
  {
    var done := keys - left;
    assert keys - (left - {id}) == done + {id};
    StartingOneMore(done, id, group);
    StartingWithin(done, group);
    assert Starting(done, group) + {} == Starting(done, group);
    if group <= id { WithoutOneMore(t, Starting(done, group), id); }
  }

  lemma NamedOneMore(m: map<string, Object>, ids: set<string>, id: string)
    requires id in m
    ensures Named(m, ids + {id}) == Named(m, ids) + {m[id]}
  {
  }

  function GetObject(t: Table, id: string): Option<Object> {
    if id in t.idToObject then Some(t.idToObject[id]) else None
  }

  function IdOf(t: Table, o: Object): Option<string> {
    if o in t.objectToId then Some(t.objectToId[o]) else None
  }

  // --- Runs ---

  datatype Step = InternStep(o: Object, group: string) | ReleaseStep(id: string) | ReleaseGroupStep(group: string)

  /** The table, and every id handed out for a new object. */
  datatype Run = Run(t: Table, issued: seq<string>)

  function Take(r: Run, step: Step): Run {
    match step
    case InternStep(o, group) =>
      Run(Intern(r.t, o, group), if o in r.t.objectToId then r.issued else r.issued + [Id(group, r.t.counter)])
    case ReleaseStep(id) => r.(t := Release(r.t, id))
    case ReleaseGroupStep(group) => r.(t := ReleaseGroup(r.t, group))
  }

  function TakeAll(r: Run, steps: seq<Step>): Run
    decreases steps
  {
    if steps == [] then r else TakeAll(Take(r, steps[0]), steps[1..])
  }

  /** The two maps are inverse to each other. */
  predicate Inverse(t: Table) {
    && (forall id :: id in t.idToObject ==>
          t.idToObject[id] in t.objectToId && t.objectToId[t.idToObject[id]] == id)
    && (forall o :: o in t.objectToId ==>
          t.objectToId[o] in t.idToObject && t.idToObject[t.objectToId[o]] == o)
  }

  /** An id of the table's form, with a number below the counter. */
  ghost predicate Old(id: string, counter: nat) {
    exists g, n: nat :: n < counter && id == Id(g, n)
  }

  ghost predicate Kept(r: Run) {
    && Inverse(r.t)
    && (forall id :: id in r.t.idToObject ==> id in r.issued)
    && (forall i :: 0 <= i < |r.issued| ==> Old(r.issued[i], r.t.counter))
    && (forall i, j :: 0 <= i < j < |r.issued| ==> r.issued[i] != r.issued[j])
  }

  lemma NextIdIsNew(g: string, counter: nat)
    ensures !Old(Id(g, counter), counter)
  {
    forall h, n: nat | n < counter ensures Id(g, counter) != Id(h, n) {
      IdInjective(g, counter, h, n);
    }
  }

  lemma OldStaysOld(id: string, counter: nat)
    requires Old(id, counter)
    ensures Old(id, counter + 1)
  {
    var g, n: nat :| n < counter && id == Id(g, n);
    assert n < counter + 1 && id == Id(g, n);
  }

  lemma InternKeeps(r: Run, o: Object, group: string)
    requires Kept(r)
    ensures Kept(Take(r, InternStep(o, group)))
  {
    var q := Take(r, InternStep(o, group));
    if o !in r.t.objectToId {
      var id := Id(group, r.t.counter);
      NextIdIsNew(group, r.t.counter);
      assert id !in r.issued;
      forall i | 0 <= i < |q.issued| ensures Old(q.issued[i], q.t.counter) {
        if i < |r.issued| { OldStaysOld(r.issued[i], r.t.counter); }
      }
    }
  }

  lemma ReleaseKeeps(r: Run, id: string)
    requires Kept(r)
    ensures Kept(Take(r, ReleaseStep(id)))
  {
    hide Old;
  }

  lemma ReleaseGroupKeeps(r: Run, group: string)
    requires Kept(r)
    ensures Kept(Take(r, ReleaseGroupStep(group)))
  {
    hide Old;
  }

  /** Over every run, the two maps stay inverse to each other and no id is handed out twice. */
  lemma {:induction false} RunKeeps(r: Run, steps: seq<Step>)
    requires Kept(r)
    ensures Kept(TakeAll(r, steps))
    decreases steps
  {
    if steps != [] {
      match steps[0]
      case InternStep(o, group) => InternKeeps(r, o, group);
      case ReleaseStep(id) => ReleaseKeeps(r, id);
      case ReleaseGroupStep(group) => ReleaseGroupKeeps(r, group);
    }
    if steps != [] {
      RunKeeps(Take(r, steps[0]), steps[1..]);
    }
  }

  lemma FreshRunKeeps(steps: seq<Step>)
    ensures Kept(TakeAll(Run(EMPTY, []), steps))
  {
    RunKeeps(Run(EMPTY, []), steps);
  }

  /** An object that was released comes back under an id it never had. */
  lemma ReturnsUnderNewId(r: Run, o: Object, group: string, steps: seq<Step>)
    requires Kept(r) && o in r.t.objectToId
    ensures var q := TakeAll(Run(Release(r.t, r.t.objectToId[o]), r.issued), steps);
            o !in q.t.objectToId ==> Intern(q.t, o, group).objectToId[o] !in q.issued
  {
    var start := Take(r, ReleaseStep(r.t.objectToId[o]));
    RunKeeps(start, steps);
    var q := TakeAll(start, steps);
    NextIdIsNew(group, q.t.counter);
  }

  // --- What each operation changes ---

  /** Exactly the ids of `ids`, and the objects found under them, leave the table. */
  ghost predicate Leave(t: Table, ids: iset<string>, t': Table) {
    && t'.counter == t.counter
    && (forall id :: GetObject(t', id) == if id in ids then None else GetObject(t, id))
    && (forall o :: IdOf(t', o) == if o in t.objectToId && t.objectToId[o] in ids then None else IdOf(t, o))
  }

  /** Releasing an id takes it and its object out of the table and leaves all others; an id that is
      not in the table changes nothing. */
  lemma ReleaseExactly(t: Table, id: string)
    requires Inverse(t)
    ensures Leave(t, iset{id}, Release(t, id))
    ensures id !in t.idToObject ==> Release(t, id) == t
  {
  }

  predicate StartsWith(id: string, group: string) { group <= id }

  /** Releasing a group takes out exactly the ids that start with its name. */
  lemma ReleaseGroupExactly(t: Table, group: string)
    requires Inverse(t)
    ensures Leave(t, (iset id | StartsWith(id, group)), ReleaseGroup(t, group))
  {
    var t' := ReleaseGroup(t, group);
    forall o | o in t.objectToId
      ensures o in Named(t.idToObject, Starting(t.idToObject.Keys, group)) <==> group <= t.objectToId[o]
    {
      assert t.idToObject[t.objectToId[o]] == o;
    }
  }

  /** A new object is entered under one id, of the group asked for, that was never handed out, and
      an object in the table keeps its id; nothing else changes. */
  lemma InternExactly(r: Run, o: Object, group: string)
    requires Kept(r)
    ensures var t' := Intern(r.t, o, group); var id := t'.objectToId[o];
            && GetObject(t', id) == Some(o)
            && (forall x :: x != id ==> GetObject(t', x) == GetObject(r.t, x))
            && (forall x :: x != o ==> IdOf(t', x) == IdOf(r.t, x))
            && if o in r.t.objectToId then IdOf(r.t, o) == Some(id) else id !in r.issued && GroupOf(id) == group
  {
    if o !in r.t.objectToId {
      NextIdIsNew(group, r.t.counter);
      IdInjective(group, r.t.counter, group, r.t.counter);
    }
  }

  // --- Groups ---

  /** Releasing a group takes every id of the group, and takes no other exactly when no id of
      another group starts with the name of this one. */
  lemma GroupReleasedExactly(r: Run, group: string)
    requires Kept(r)
    ensures var t := ReleaseGroup(r.t, group);
            && (forall id :: id in r.t.idToObject && GroupOf(id) == group ==> id !in t.idToObject)
            && ((forall id :: id in r.t.idToObject ==> (id in t.idToObject <==> GroupOf(id) != group))
                <==> forall id :: id in r.t.idToObject && group <= id ==> GroupOf(id) == group)
  {
    forall id | id in r.t.idToObject && GroupOf(id) == group ensures group <= id {
      var i :| 0 <= i < |r.issued| && r.issued[i] == id;
      var g, n: nat :| n < r.t.counter && id == Id(g, n);
      IdInjective(g, n, g, n);
      assert id[..|g|] == g;
    }
    var t := ReleaseGroup(r.t, group);
    assert forall id :: id in r.t.idToObject ==> (id in t.idToObject <==> !(group <= id));
  }

  /** Releasing group "a" also releases group "ab". */
  lemma PrefixGroupGoesToo(t: Table)
    requires t == Intern(EMPTY, 7, "ab")
    ensures Kept(Run(t, ["ab:1"]))
    ensures GetObject(t, "ab:1") == Some(7) && GroupOf("ab:1") == "ab"
    ensures GetObject(ReleaseGroup(t, "a"), "ab:1") == None
  {
    assert Decimal(1) == "1" && Id("ab", 1) == "ab:1";
    IdInjective("ab", 1, "ab", 1);
    InternKeeps(Run(EMPTY, []), 7, "ab");
    assert [] + ["ab:1"] == ["ab:1"];
    assert "a" <= "ab:1";
  }

  // --- The class ---

  class InspectorContext {
    var idToObject: map<string, Object>
    var objectToId: map<Object, string>
    var objectCounter: nat

    function Contents(): Table
      reads this
    {
      Table(idToObject, objectToId, objectCounter)
    }

    constructor ()
      ensures Contents() == EMPTY
    {
      idToObject, objectToId, objectCounter := map[], map[], 1;
    }

    method InternObject(o: Object, group: string) returns (id: string)
      requires Inverse(Contents())
      modifies this
      ensures Contents() == Intern(old(Contents()), o, group)
      ensures o in objectToId && id == objectToId[o] && GetObject(Contents(), id) == Some(o)
    {
      if o in objectToId { return objectToId[o]; }
      id := Id(group, objectCounter);
      objectCounter := objectCounter + 1;
      idToObject := idToObject[id := o];
      objectToId := objectToId[o := id];
    }

    method ReleaseObject(id: string)
      modifies this
      ensures Contents() == Release(old(Contents()), id)
    {
      if id in idToObject {
        var o := idToObject[id];
        idToObject := idToObject - {id};
        objectToId := objectToId - {o};
      }
    }

    method ReleaseObjectGroup(group: string)
      modifies this
      ensures Contents() == ReleaseGroup(old(Contents()), group)
    {
      ghost var was := Contents();
      ghost var keys := idToObject.Keys;
      var left := idToObject.Keys;
      NothingDone(was, group);
      hide Without, Starting;
      while left != {}
        invariant left <= keys
        invariant Contents() == Without(was, Starting(keys - left, group))
        decreases |left|
      {
        var id :| id in left;
        DropOne(was, keys, left, id, group);
        if group <= id {
          objectToId := objectToId - {idToObject[id]};
          idToObject := idToObject - {id};
        }
        left := left - {id};
      }
      assert keys - left == keys;
    }
  }
}
