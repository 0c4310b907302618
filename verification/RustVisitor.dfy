// sdk/rust/src/wire.rs, the Strict visitor: serde hands it the elements of an array or
// the members of an object one by one; it checks depth and names as they arrive. The
// decoder below it refuses strings that are not UTF-8 or have unpaired surrogate escapes,
// and the numbers that do not fit the types it reads them into; which those are is a
// parameter.
module RustVisitor {
  import opened JsonGrammar
  import opened Accounting
  import opened JsonEncodings
  import opened JsonEscapes
  import opened JsonNames
  import opened JsonUtf8
  import opened GoTokens

  // Whether serde_json reads the string literal, from its bytes.
  predicate ReadsString(ps: seq<Piece>) {
    Utf8Valid(Encode(Utf8, RenderPieces(ps))) && Paired(ps)
  }

  // Whether deserializing the value with Strict(depth) succeeds.
  predicate Strict(takes: Numeral -> bool, v: Value, depth: nat)
    requires Valid(v)
  {
    match v
    case Literal(_) => true
    case Number(n) => takes(n)
    case String(ps) => ReadsString(ps)
    case Array(_, items) => depth < MAX_DEPTH && StrictItems(takes, items, depth + 1)
    case Object(_, members) => depth < MAX_DEPTH && StrictMembers(takes, members, depth + 1, {})
  }

  predicate StrictItems(takes: Numeral -> bool, items: Items, depth: nat)
    requires ValidItems(items)
  {
    items.Item? ==> Strict(takes, items.value, depth) && StrictItems(takes, items.rest, depth)
  }

  predicate StrictMembers(takes: Numeral -> bool, members: Members, depth: nat, seen: set<Text>)
    requires ValidMembers(members)
  {
    members.Member? ==>
      && ReadsString(members.name) && CodePoints(members.name) !in seen && Strict(takes, members.value, depth)
      && StrictMembers(takes, members.rest, depth, seen + {CodePoints(members.name)})
  }

  // ----- The visitor -----

  method Visit(takes: Numeral -> bool, v: Value, depth: nat) returns (ok: bool)
    requires Valid(v)
    ensures ok <==> Strict(takes, v, depth)
    decreases v
  {
    match v {
      case Literal(_) => ok := true;
      case Number(n) => ok := takes(n);
      case String(ps) => ok := ReadsString(ps);
      case Array(_, items) => ok := VisitSeq(takes, items, depth);
      case Object(_, members) => ok := VisitMap(takes, members, depth);
    }
  }

  method VisitSeq(takes: Numeral -> bool, items: Items, depth: nat) returns (ok: bool)
    requires ValidItems(items)
    ensures ok <==> depth < MAX_DEPTH && StrictItems(takes, items, depth + 1)
    decreases items
  {
    if depth >= MAX_DEPTH {
      return false;
    }
    var left := items;
    while left.Item?
      invariant ValidItems(left) && (left == items || left < items)
      invariant StrictItems(takes, items, depth + 1) <==> StrictItems(takes, left, depth + 1)
      decreases left
    {
      var one := Visit(takes, left.value, depth + 1);
      if !one {
        return false;
      }
      left := left.rest;
    }
    return true;
  }

  method VisitMap(takes: Numeral -> bool, members: Members, depth: nat) returns (ok: bool)
    requires ValidMembers(members)
    ensures ok <==> depth < MAX_DEPTH && StrictMembers(takes, members, depth + 1, {})
    decreases members
  {
    hide CodePoints, ValidPieces, ReadsString;
    if depth >= MAX_DEPTH {
      return false;
    }
    var left := members;
    var values: set<Text> := {};
    while left.Member?
      invariant ValidMembers(left) && (left == members || left < members)
      invariant StrictMembers(takes, members, depth + 1, {}) <==> StrictMembers(takes, left, depth + 1, values)
      decreases left
    {
      if !ReadsString(left.name) {
        return false;
      }
      var key := CodePoints(left.name);
      if key in values {
        return false;
      }
      var one := Visit(takes, left.value, depth + 1);
      if !one {
        return false;
      }
      values := values + {key};
      left := left.rest;
    }
    return true;
  }

  // ----- What it decides -----

  lemma ReadsStringIff(ps: seq<Piece>)
    requires ValidPieces(ps)
    ensures ReadsString(ps) <==> Characters(ps) && Paired(ps)
  {
    PiecesUtf8(ps);
  }

  lemma {:induction false} StrictDecided(takes: Numeral -> bool, v: Value, depth: nat)
    requires Valid(v) && depth <= MAX_DEPTH
    ensures Strict(takes, v, depth)
       <==> Depth(v) + depth <= MAX_DEPTH && Legible(v) && PairedValue(v) && DistinctPoints(v)
            && NumbersTaken(takes, v)
    decreases v
  {
    hide ReadsString, Characters, Paired;
    match v {
      case String(ps) => ReadsStringIff(ps);
      case Array(_, items) =>
        if depth < MAX_DEPTH {
          StrictItemsDecided(takes, items, depth + 1);
        }
      case Object(_, members) =>
        if depth < MAX_DEPTH {
          StrictMembersDecided(takes, members, depth + 1, {});
        }
      case _ =>
    }
  }

  lemma {:induction false} StrictItemsDecided(takes: Numeral -> bool, items: Items, depth: nat)
    requires ValidItems(items) && depth <= MAX_DEPTH
    ensures StrictItems(takes, items, depth)
       <==> ItemsDepth(items) + depth <= MAX_DEPTH && LegibleItems(items) && PairedItems(items)
            && DistinctPointItems(items) && NumbersTakenItems(takes, items)
    decreases items
  {
    hide Strict, Depth, Legible, PairedValue, DistinctPoints, NumbersTaken;
    if items.Item? {
      StrictDecided(takes, items.value, depth);
      StrictItemsDecided(takes, items.rest, depth);
    }
  }

  lemma {:induction false} StrictMembersDecided(takes: Numeral -> bool, members: Members, depth: nat, seen: set<Text>)
    requires ValidMembers(members) && depth <= MAX_DEPTH
    ensures StrictMembers(takes, members, depth, seen)
       <==> MembersDepth(members) + depth <= MAX_DEPTH && LegibleMembers(members) && PairedMembers(members)
            && DistinctPointMembers(members) && PointNames(members) !! seen && NumbersTakenMembers(takes, members)
    decreases members
  {
    hide Strict, Depth, Legible, PairedValue, DistinctPoints, NumbersTaken, CodePoints, ValidPieces, ReadsString;
    hide Characters, Paired;
    if members.Member? {
      ReadsStringIff(members.name);
      StrictDecided(takes, members.value, depth);
      StrictMembersDecided(takes, members.rest, depth, seen + {CodePoints(members.name)});
    }
  }
}
