/**
 * The two per-user listings: GET /api/video/list over the `video-metadata/`
 * objects (sorted by `uploadDate`) and GET /api/video/exports over the
 * `exports/` objects (sorted by `createdAt`). Both keep the readable records
 * whose `userId` equals the query, skip every record whose fetch or parse
 * throws, and sort newest first.
 */
module Listing {
  import opened Wrappers
  import opened Json
  import Decimal
  import Sequences

  /** One listed object after `fetch(blob.url)` and `response.json()`; None when either threw. */
  type Fetched = Option<Value>

  datatype Response =
    | UserIdRequired          // 400 {error: "User ID required"}
    | Listed(items: seq<Value>)  // 200 {videos: items} or {exports: items}
    | ListFailed              // 500: `list()` itself threw

  /** `data.userId === userId`; a `null` record throws inside the per-record try and is skipped too. */
  predicate OwnedBy(v: Value, userId: string) {
    Prop(v, "userId") == Defined(Str(userId))
  }

  /**
   * `new Date(v[field]).getTime()`, with ISO-8601 parsing left to `parseIso`.
   * None stands for NaN: an absent field, an unparsable string, an object or an array.
   */
  function Timestamp(v: Value, field: string, parseIso: string -> Option<int>): Option<int> {
    match Prop(v, field)
    case Defined(Str(s)) => parseIso(s)
    case Defined(Null) => Some(0)
    case Defined(Bool(b)) => Some(if b then 1 else 0)
    case Defined(Num(n)) => Some(Decimal.Trunc(n))
    case _ => None
  }

  /** Newest first; records without a valid date go last. */
  predicate NewerOrEqual(a: Option<int>, b: Option<int>) {
    if a.None? then b.None? else b.None? || a.value >= b.value
  }

  /** The comparator `(a, b) => date(b) - date(a)`, as an ordering on records. */
  function ByNewest(field: string, parseIso: string -> Option<int>): (Value, Value) -> bool {
    (x: Value, y: Value) => NewerOrEqual(Timestamp(x, field, parseIso), Timestamp(y, field, parseIso))
  }

  lemma ByNewestIsTotalPreorder(field: string, parseIso: string -> Option<int>)
    ensures Sequences.TotalPreorder(ByNewest(field, parseIso))
  {
  }

  /** The readable records owned by `userId`, in listing order. */
  function Owned(blobs: seq<Fetched>, userId: string): (r: seq<Value>)
    ensures |r| <= |blobs|
    ensures forall v :: v in r <==> Some(v) in blobs && OwnedBy(v, userId)
  {
    if blobs == [] then []
    else
      assert blobs == [blobs[0]] + blobs[1..];
      (if blobs[0].Some? && OwnedBy(blobs[0].value, userId) then [blobs[0].value] else [])
      + Owned(blobs[1..], userId)
  }

  /** Each owned record appears as often as the listing holds it; every other value never. */
  lemma {:induction false} OwnedCounts(blobs: seq<Fetched>, userId: string)
    ensures forall v :: multiset(Owned(blobs, userId))[v] == if OwnedBy(v, userId) then multiset(blobs)[Some(v)] else 0
  {
    if blobs != [] {
      OwnedCounts(blobs[1..], userId);
      assert blobs == [blobs[0]] + blobs[1..];
    }
  }

  lemma {:induction false} OwnedAppend(a: seq<Fetched>, b: seq<Fetched>, userId: string)
    ensures Owned(a + b, userId) == Owned(a, userId) + Owned(b, userId)
  {
    if a == [] {
      assert a + b == b;
    } else {
      var head := if a[0].Some? && OwnedBy(a[0].value, userId) then [a[0].value] else [];
      assert (a + b)[0] == a[0];
      assert (a + b)[1..] == a[1..] + b;
      calc {
        Owned(a + b, userId);
        head + Owned(a[1..] + b, userId);
        { OwnedAppend(a[1..], b, userId); }
        head + (Owned(a[1..], userId) + Owned(b, userId));
        (head + Owned(a[1..], userId)) + Owned(b, userId);
        Owned(a, userId) + Owned(b, userId);
      }
    }
  }

  /** What a successful listing promises: exactly the owned readable records, newest first. */
  ghost predicate OwnedNewestFirst(items: seq<Value>, blobs: seq<Fetched>, userId: string,
                                   field: string, parseIso: string -> Option<int>) {
    && multiset(items) == multiset(Owned(blobs, userId))
    && (forall v :: v in items <==> Some(v) in blobs && OwnedBy(v, userId))
    && Sequences.SortedBy(items, ByNewest(field, parseIso))
  }

  /**
   * The shared handler body: `userId` is None for a missing query parameter,
   * `blobs` is None when `list()` throws.
   */
  function ListForUser(userId: Option<string>, blobs: Option<seq<Fetched>>, field: string,
                       parseIso: string -> Option<int>): (r: Response)
    ensures r == UserIdRequired <==> Blank(userId)
    ensures r == ListFailed <==> !Blank(userId) && blobs.None?
    ensures r.Listed? ==> OwnedNewestFirst(r.items, blobs.value, userId.value, field, parseIso)
  {
    if Blank(userId) then UserIdRequired
    else if blobs.None? then ListFailed
    else
      ByNewestIsTotalPreorder(field, parseIso);
      var owned := Owned(blobs.value, userId.value);
      OwnedCounts(blobs.value, userId.value);
      var sorted := Sequences.Sort(owned, ByNewest(field, parseIso));
      assert forall v :: v in sorted <==> v in multiset(owned);
      Listed(sorted)
  }

  /** GET /api/video/list: the user's video metadata, newest upload first. */
  function VideoList(userId: Option<string>, blobs: Option<seq<Fetched>>,
                     parseIso: string -> Option<int>): (r: Response)
    ensures r == UserIdRequired <==> Blank(userId)
    ensures r == ListFailed <==> !Blank(userId) && blobs.None?
    ensures r.Listed? ==> OwnedNewestFirst(r.items, blobs.value, userId.value, "uploadDate", parseIso)
  {
    ListForUser(userId, blobs, "uploadDate", parseIso)
  }

  /** GET /api/video/exports: the user's export jobs, newest creation first. */
  function ExportsList(userId: Option<string>, blobs: Option<seq<Fetched>>,
                       parseIso: string -> Option<int>): (r: Response)
    ensures r == UserIdRequired <==> Blank(userId)
    ensures r == ListFailed <==> !Blank(userId) && blobs.None?
    ensures r.Listed? ==> OwnedNewestFirst(r.items, blobs.value, userId.value, "createdAt", parseIso)
  {
    ListForUser(userId, blobs, "createdAt", parseIso)
  }

  /** An unreadable object at the end contributes nothing. */
  lemma OwnedDropsTrailingGap(before: seq<Fetched>, userId: string)
    ensures Owned(before + [None], userId) == Owned(before, userId)
  {
    var gap: seq<Fetched> := [None];
    assert Owned(gap, userId) == [] by {
      assert gap[1..] == [];
    }
    OwnedAppend(before, gap, userId);
  }

  /** Dropping an unreadable object leaves the owned records as they were. */
  lemma OwnedSkipsUnreadable(before: seq<Fetched>, after: seq<Fetched>, userId: string)
    ensures Owned(before + [None] + after, userId) == Owned(before + after, userId)
  {
    OwnedAppend(before + [None], after, userId);
    OwnedDropsTrailingGap(before, userId);
    OwnedAppend(before, after, userId);
  }

  /**
   * An object whose fetch or parse fails is dropped without disturbing the
   * rest: the listing is the one the remaining objects alone would give.
   */
  lemma UnreadableSkipped(userId: Option<string>, before: seq<Fetched>, after: seq<Fetched>,
                          field: string, parseIso: string -> Option<int>)
    ensures ListForUser(userId, Some(before + [None] + after), field, parseIso)
         == ListForUser(userId, Some(before + after), field, parseIso)
  {
    if !Blank(userId) {
      OwnedSkipsUnreadable(before, after, userId.value);
    }
  }
}
