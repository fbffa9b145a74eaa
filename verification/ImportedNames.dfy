/** The names one module requests of another, and the operations on them. */
module ImportedNames {

  datatype Names = All | AllButDefault | List(names: seq<string>)

  const DEFAULT := "default"

  predicate Denotes(a: Names, n: string) {
    match a
    case All => true
    case AllButDefault => n != DEFAULT
    case List(l) => n in l
  }

  function AppendNew<T(==,!new)>(merged: seq<T>, names: seq<T>): (r: seq<T>)
    ensures forall n :: n in r <==> n in merged || n in names
    decreases |names|
  {
    if names == [] then merged
    else
      var m := if names[0] in merged then merged else merged + [names[0]];
      AppendNew(m, names[1..])
  }

  /** MergeImportedNames denotes the union. */
  function Merge(a: Names, b: Names): (r: Names)
    ensures forall n :: Denotes(r, n) <==> Denotes(a, n) || Denotes(b, n)
  {
    if a.All? || b.All? then All
    else if a.AllButDefault? && b.List? && DEFAULT in b.names then All
    else if b.AllButDefault? && a.List? && DEFAULT in a.names then All
    else if a.AllButDefault? || b.AllButDefault? then AllButDefault
    else List(AppendNew(a.names, b.names))
  }

  method MergeImportedNames(a: Names, b: Names) returns (r: Names)
    ensures r == Merge(a, b)
  {
    if a.All? || b.All? {
      return All;
    }
    if a.AllButDefault? && b.List? && DEFAULT in b.names {
      return All;
    }
    if b.AllButDefault? && a.List? && DEFAULT in a.names {
      return All;
    }
    if a.AllButDefault? || b.AllButDefault? {
      return AllButDefault;
    }
    var result := a.names;
    for i := 0 to |b.names|
      invariant AppendNew(result, b.names[i..]) == AppendNew(a.names, b.names)
    {
      assert b.names[i..][1..] == b.names[i + 1..];
      if b.names[i] !in result {
        result := result + [b.names[i]];
      }
    }
    r := List(result);
  }

  function Without(a: seq<string>, b: seq<string>): (r: seq<string>)
    ensures forall n :: n in r <==> n in a && n !in b
  {
    if a == [] then []
    else (if a[0] in b then [] else [a[0]]) + Without(a[1..], b)
  }

  /** ExcludeImportedNames keeps every name of a that b lacks, and adds none that a lacks. */
  function Exclude(a: Names, b: Names): (r: Names)
    ensures forall n :: Denotes(a, n) && !Denotes(b, n) ==> Denotes(r, n)
    ensures forall n :: Denotes(r, n) ==> Denotes(a, n)
    ensures b.All? ==> r == List([])
  {
    if b.All? then List([])
    else if a.All? then All
    else if a.AllButDefault? then
      (if b.AllButDefault? then List([]) else AllButDefault)
    else if b.AllButDefault? then
      (if DEFAULT in a.names then List([DEFAULT]) else List([]))
    else List(Without(a.names, b.names))
  }

  method FilterOut(a: seq<string>, b: seq<string>) returns (result: seq<string>)
    ensures result == Without(a, b)
  {
    result := [];
    for i := 0 to |a|
      invariant result + Without(a[i..], b) == Without(a, b)
    {
      assert a[i..][0] == a[i] && a[i..][1..] == a[i + 1..];
      if a[i] !in b {
        assert (result + [a[i]]) + Without(a[i + 1..], b) == result + ([a[i]] + Without(a[i + 1..], b));
        result := result + [a[i]];
      } else {
        assert [] + Without(a[i + 1..], b) == Without(a[i + 1..], b);
      }
    }
  }

  method ExcludeImportedNames(a: Names, b: Names) returns (r: Names)
    ensures r == Exclude(a, b)
  {
    if b.All? {
      return List([]);
    }
    if a.All? {
      return All;
    }
    if a.AllButDefault? {
      if b.AllButDefault? {
        return List([]);
      }
      return AllButDefault;
    }
    if b.AllButDefault? {
      if DEFAULT in a.names {
        return List([DEFAULT]);
      }
      return List([]);
    }
    var result := FilterOut(a.names, b.names);
    r := List(result);
  }

  /** The remaining names are a plain difference exactly when a is a list, b already has
      everything of a's shape, or nothing of a was requested before. */
  predicate ExcludeIsExact(a: Names, b: Names) {
    a.List? || b.All? || (a.AllButDefault? && b.AllButDefault?)
    || (b.List? && forall i :: 0 <= i < |b.names| ==> !Denotes(a, b.names[i]))
  }

  lemma ExcludeExactness(a: Names, b: Names)
    ensures (forall n :: Denotes(Exclude(a, b), n) <==> Denotes(a, n) && !Denotes(b, n)) <==> ExcludeIsExact(a, b)
  {
    if !ExcludeIsExact(a, b) {
      if b.List? {
        var i :| 0 <= i < |b.names| && Denotes(a, b.names[i]);
        assert Denotes(Exclude(a, b), b.names[i]) && Denotes(b, b.names[i]);
      } else {
        assert Denotes(Exclude(a, b), "x") && Denotes(b, "x");
      }
    }
  }

  /** The bookkeeping of GetNewOptionalIndirectExportsModuleRequests: what was requested before,
      plus what is new, is what is requested now. */
  lemma PreviousPlusNew(previous: Names, names: Names, n: string)
    ensures Denotes(Merge(previous, Exclude(names, previous)), n) <==> Denotes(previous, n) || Denotes(names, n)
  {
  }
}
