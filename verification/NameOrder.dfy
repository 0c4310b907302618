// Sorting by name, as Go's sort package orders strings: by their first differing unit.
module NameOrder {
  import opened Envelopes

  predicate Less(a: string, b: string) {
    b != "" && (a == "" || a[0] < b[0] || (a[0] == b[0] && Less(a[1..], b[1..])))
  }

  // Decided where the two first differ, the shorter first if they do not.
  lemma {:induction false} LessAtDifference(common: string, a: string, b: string)
    requires a == "" || b == "" || a[0] != b[0]
    ensures Less(common + a, common + b) <==> b != "" && (a == "" || a[0] < b[0])
    decreases |common|
  {
    if common == "" {
      assert common + a == a && common + b == b;
    } else {
      assert (common + a)[1..] == common[1..] + a && (common + b)[1..] == common[1..] + b;
      LessAtDifference(common[1..], a, b);
    }
  }

  lemma {:induction false} LessIsIrreflexive(a: string)
    ensures !Less(a, a)
  {
    if a != "" {
      LessIsIrreflexive(a[1..]);
    }
  }

  lemma {:induction false} LessIsStrict(a: string, b: string)
    ensures !(Less(a, b) && Less(b, a))
    ensures a == b || Less(a, b) || Less(b, a)
    decreases |a| + |b|
  {
    if a != "" && b != "" && a[0] == b[0] {
      LessIsStrict(a[1..], b[1..]);
      assert a == [a[0]] + a[1..] && b == [b[0]] + b[1..];
    }
  }

  lemma {:induction false} LessIsTransitive(a: string, b: string, c: string)
    requires Less(a, b) && Less(b, c)
    ensures Less(a, c)
    decreases |a|
  {
    if a != "" && a[0] == b[0] == c[0] {
      LessIsTransitive(a[1..], b[1..], c[1..]);
    }
  }

  // One fragment file: its name and raw bytes.
  datatype Source = Source(name: string, raw: seq<byte>)

  predicate Ascending(s: seq<Source>) {
    forall i, j :: 0 <= i < j < |s| ==> Less(s[i].name, s[j].name)
  }

  predicate DistinctNames(s: seq<Source>) {
    forall i, j :: 0 <= i < j < |s| ==> s[i].name != s[j].name
  }

  function Insert(x: Source, s: seq<Source>): seq<Source> {
    if s == [] || Less(x.name, s[0].name) then [x] + s else [s[0]] + Insert(x, s[1..])
  }

  function Sort(s: seq<Source>): seq<Source> {
    if s == [] then [] else Insert(s[0], Sort(s[1..]))
  }

  ghost predicate SameItems(a: seq<Source>, b: seq<Source>) {
    (forall x :: x in a ==> x in b) && (forall x :: x in b ==> x in a)
  }

  lemma {:induction false} InsertKeeps(x: Source, s: seq<Source>)
    ensures forall y :: y in Insert(x, s) <==> y == x || y in s
    ensures |Insert(x, s)| == |s| + 1
  {
    if s != [] && !Less(x.name, s[0].name) {
      InsertKeeps(x, s[1..]);
      assert s == [s[0]] + s[1..];
    }
  }

  lemma {:induction false} InsertAscends(x: Source, s: seq<Source>)
    requires Ascending(s) && forall y :: y in s ==> y.name != x.name
    ensures Ascending(Insert(x, s))
  {
    if s == [] {
    } else if Less(x.name, s[0].name) {
      forall j | 0 <= j < |s| ensures Less(x.name, s[j].name) {
        if j > 0 {
          LessIsTransitive(x.name, s[0].name, s[j].name);
        }
      }
    } else {
      hide Less;
      var rest := Insert(x, s[1..]);
      InsertAscends(x, s[1..]);
      InsertKeeps(x, s[1..]);
      forall j | 0 <= j < |rest| ensures Less(s[0].name, rest[j].name) {
        assert s[0] in s && rest[j] in rest;
        LessIsStrict(x.name, s[0].name);
        if rest[j] != x {
          var k :| 0 <= k < |s[1..]| && s[1..][k] == rest[j];
          assert s[k + 1] == rest[j];
        }
      }
    }
  }

  lemma {:induction false} SortKeeps(s: seq<Source>)
    ensures SameItems(Sort(s), s) && |Sort(s)| == |s|
    ensures DistinctNames(s) ==> Ascending(Sort(s))
  {
    if s != [] {
      SortKeeps(s[1..]);
      InsertKeeps(s[0], Sort(s[1..]));
      var t := Insert(s[0], Sort(s[1..]));
      assert Sort(s) == t;
      assert forall y :: y in s <==> y == s[0] || y in s[1..];
      forall y ensures y in t <==> y in s {
      }
      if DistinctNames(s) {
        assert forall y :: y in Sort(s[1..]) ==> y in s[1..];
        InsertAscends(s[0], Sort(s[1..]));
      }
    }
  }

  // An ascending list is determined by its items.
  lemma {:induction false} AscendingIsUnique(a: seq<Source>, b: seq<Source>)
    requires Ascending(a) && Ascending(b) && SameItems(a, b)
    ensures a == b
    decreases |a|
  {
    if b != [] {
      NonemptyToo(a, b);
    }
    if a != [] {
      NonemptyToo(b, a);
      FirstIsLeast(a, b);
      forall x | x in a[1..] ensures x in b[1..] {
        TailItem(a, b, x);
      }
      forall x | x in b[1..] ensures x in a[1..] {
        TailItem(b, a, x);
      }
      AscendingIsUnique(a[1..], b[1..]);
      assert a == [a[0]] + a[1..] && b == [b[0]] + b[1..];
    }
  }

  lemma NonemptyToo(a: seq<Source>, b: seq<Source>)
    requires SameItems(a, b) && b != []
    ensures a != []
  {
    assert b[0] in a;
  }

  lemma FirstIsLeast(a: seq<Source>, b: seq<Source>)
    requires Ascending(a) && Ascending(b) && SameItems(a, b) && a != [] && b != []
    ensures a[0] == b[0]
  {
    assert a[0] in b && b[0] in a;
    LessIsStrict(a[0].name, b[0].name);
  }

  lemma TailItem(a: seq<Source>, b: seq<Source>, x: Source)
    requires Ascending(a) && SameItems(a, b) && a != [] && b != [] && x in a[1..] && a[0] == b[0]
    ensures x in b[1..]
  {
    LessIsIrreflexive(x.name);
    assert x != a[0];
    assert x in a && x in b;
    assert b == [b[0]] + b[1..];
  }

  // Sorting does not depend on the order given.
  lemma SortIgnoresOrder(a: seq<Source>, b: seq<Source>)
    requires DistinctNames(a) && DistinctNames(b) && SameItems(a, b)
    ensures Sort(a) == Sort(b)
  {
    SortKeeps(a);
    SortKeeps(b);
    AscendingIsUnique(Sort(a), Sort(b));
  }
}
