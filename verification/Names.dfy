/** Names in lexicographic order: enumerating a set, sorting, dropping repeats. */
module Names {

  predicate Less(a: string, b: string) {
    b != [] && (a == [] || a[0] < b[0] || (a[0] == b[0] && Less(a[1..], b[1..])))
  }

  lemma {:induction false} LessIsTotal(a: string, b: string)
    ensures Less(a, b) || a == b || Less(b, a)
  {
    if a != [] && b != [] && a[0] == b[0] {
      LessIsTotal(a[1..], b[1..]);
      assert a == [a[0]] + a[1..] && b == [b[0]] + b[1..];
    }
  }

  lemma {:induction false} LessIsTransitive(a: string, b: string, c: string)
    requires Less(a, b) && Less(b, c)
    ensures Less(a, c)
  {
    if a != [] && a[0] == b[0] == c[0] {
      LessIsTransitive(a[1..], b[1..], c[1..]);
    }
  }

  lemma {:induction false} LessIsStrict(a: string)
    ensures !Less(a, a)
  {
    if a != [] {
      LessIsStrict(a[1..]);
    }
  }

  predicate Ascending(names: seq<string>) {
    forall i, j :: 0 <= i < j < |names| ==> Less(names[i], names[j])
  }

  predicate InOrder(names: seq<string>) {
    forall i, j :: 0 <= i < j < |names| ==> !Less(names[j], names[i])
  }

  ghost predicate SameNames(xs: seq<string>, ys: seq<string>) {
    forall x :: x in xs <==> x in ys
  }

  function Insert(name: string, names: seq<string>): seq<string> {
    if names == [] || !Less(names[0], name) then [name] + names else [names[0]] + Insert(name, names[1..])
  }

  function SortNames(names: seq<string>): seq<string> {
    if names == [] then [] else Insert(names[0], SortNames(names[1..]))
  }

  /** Of equal neighbours, one is kept. */
  function Dedup(names: seq<string>): seq<string> {
    if |names| <= 1 then names
    else if names[0] == names[1] then Dedup(names[1..])
    else [names[0]] + Dedup(names[1..])
  }

  /** The names of a set, in some order. */
  method Enumerate(names: set<string>) returns (listed: seq<string>)
    ensures forall x :: x in listed <==> x in names
  {
    listed := [];
    var rest := names;
    while rest != {}
      invariant rest <= names
      invariant forall x :: x in listed <==> x in names - rest
    {
      var x :| x in rest;
      listed, rest := listed + [x], rest - {x};
    }
  }

  lemma {:induction false} InsertKeepsOrder(name: string, names: seq<string>)
    requires InOrder(names)
    ensures InOrder(Insert(name, names)) && SameNames(Insert(name, names), [name] + names)
  {
    hide Less;
    if names != [] {
      if !Less(names[0], name) {
        LessIsStrict(names[0]);
        forall i | 0 <= i < |names| ensures !Less(names[i], name) {
          NotLessIsTransitive(names[i], names[0], name);
        }
      } else {
        var rest := Insert(name, names[1..]);
        InsertKeepsOrder(name, names[1..]);
        LessIsAsymmetric(names[0], name);
        assert forall i :: 0 <= i < |rest| ==> rest[i] in [name] + names[1..];
      }
    }
  }

  lemma LessIsAsymmetric(a: string, b: string)
    requires Less(a, b)
    ensures !Less(b, a)
  {
    if Less(b, a) {
      LessIsTransitive(a, b, a);
      LessIsStrict(a);
    }
  }

  lemma NotLessIsTransitive(a: string, b: string, c: string)
    requires !Less(a, b) && !Less(b, c)
    ensures !Less(a, c)
  {
    hide Less;
    LessIsTotal(a, b);
    LessIsTotal(b, c);
    if Less(a, c) {
      if Less(b, a) {
        LessIsTransitive(b, a, c);
      }
    }
  }

  lemma {:induction false} SortIsInOrder(names: seq<string>)
    ensures InOrder(SortNames(names)) && SameNames(SortNames(names), names)
  {
    hide Less, Insert;
    if names != [] {
      SortIsInOrder(names[1..]);
      InsertKeepsOrder(names[0], SortNames(names[1..]));
    }
  }

  lemma {:induction false} DedupIsAscending(names: seq<string>)
    requires InOrder(names)
    ensures Ascending(Dedup(names)) && SameNames(Dedup(names), names)
  {
    hide Less;
    if |names| > 1 {
      DedupIsAscending(names[1..]);
      assert names == [names[0]] + names[1..];
      if names[0] != names[1] {
        forall i | 1 <= i < |names| ensures Less(names[0], names[i]) {
          LessIsTotal(names[0], names[1]);
          LessIsTotal(names[1], names[i]);
          if names[i] != names[1] {
            LessIsTransitive(names[0], names[1], names[i]);
          }
        }
        assert forall x :: x in Dedup(names[1..]) ==> Less(names[0], x);
      }
    }
  }

  /** Sorting and dropping repeats lists every name once, in ascending order. */
  lemma SortDedup(names: seq<string>)
    ensures Ascending(Dedup(SortNames(names))) && SameNames(Dedup(SortNames(names)), names)
  {
    hide Dedup, SortNames;
    SortIsInOrder(names);
    DedupIsAscending(SortNames(names));
  }
}
