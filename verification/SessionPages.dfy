/** Following `next_cursor` over a fixed set of sessions (crates/oc-acp/src/service.rs). */
module SessionPages {
  import opened Wrappers
  import opened SessionList

  /** `pages` are the pages of the requests made from `cursor` on, each with the cursor of the response
      before, up to a response without one. */
  ghost predicate Follows(sorted: seq<Session>, cursor: Option<int>, pages: seq<seq<Session>>)
    decreases |pages|
  {
    && pages != [] && pages[0] == Respond(sorted, cursor).page
    && match Respond(sorted, cursor).next
       case None => |pages| == 1
       case Some(t) => Follows(sorted, Some(t), pages[1..])
  }

  function Negatives(entries: seq<Session>): seq<Session> {
    Earlier(entries, 0)
  }

  /** No page but the last ends at a negative time, so every cursor says what it should. */
  ghost predicate CursorsExact(pages: seq<seq<Session>>) {
    forall p :: 0 <= p < |pages| - 1 ==> EndsAtCursor(pages[p])
  }

  predicate EndsAtCursor(page: seq<Session>) {
    page != [] ==> page[|page| - 1].updated >= 0
  }

  ghost predicate Distinct(entries: seq<Session>) {
    forall i, j :: 0 <= i < j < |entries| ==> entries[i] != entries[j]
  }

  // ---------- The pages ----------

  /** The pages together are latest first. */
  lemma {:induction false} PagesDescend(s: seq<Session>)
    requires Latest(s)
    ensures Latest(Flatten(Pages(s)))
    ensures forall e :: e in Flatten(Pages(s)) ==> e in s
    decreases |s|
  {
    if |s| > LIMIT {
      var k := Divides(s);
      PagesDescend(s[k..]);
      var rest := Flatten(Pages(s[k..]));
      assert Flatten(Pages(s)) == s[..LIMIT] + rest;
      forall j | 0 <= j < |rest|
        ensures rest[j].updated < s[LIMIT - 1].updated
      {
        assert rest[j] in s[k..];
      }
    } else {
      assert [s][1..] == [] && Flatten([s]) == s;
    }
  }

  /** An entry is missed exactly when it shares the timestamp of the last entry of a page that is not
      the last page, and is not on that page. */
  lemma {:induction false} MissedExactly(s: seq<Session>, e: Session)
    requires Latest(s) && Distinct(s) && e in s
    ensures e in Missed(s) <==> CutOffBySome(Pages(s), e)
    decreases |s|
  {
    if |s| <= LIMIT {
      assert |Pages(s)| == 1;
    } else {
      hide Missed, CutOffBySome, Pages, Distinct, Latest;
      var k := MissedStep(s, e);
      if e in s[k..] {
        MissedExactly(s[k..], e);
      }
    }
  }

  /** What the first page and the entries it cuts off have to do with one entry. */
  lemma MissedStep(s: seq<Session>, e: Session) returns (k: nat)
    requires |s| > LIMIT && Latest(s) && Distinct(s) && e in s
    ensures LIMIT <= k <= |s| && Latest(s[k..]) && Distinct(s[k..])
    ensures e in Missed(s) <==> e in s[LIMIT..k] || e in Missed(s[k..])
    ensures CutOffBySome(Pages(s), e) <==> e in s[LIMIT..k] || CutOffBySome(Pages(s[k..]), e)
    ensures e !in s[k..] ==> e !in Missed(s[k..]) && !CutOffBySome(Pages(s[k..]), e)
  {
    hide CutOff, CutOffBySome, Earlier, Sharing;
    k := Divides(s);
    CutOffStep(s[..LIMIT], Pages(s[k..]), e);
    CutOffByFirst(s, k, e);
    if e !in s[k..] {
      LaterPagesEarlier(s[k..]);
      MissedAreThere(s[k..]);
      NotCutOffLater(s, k, e);
    }
  }

  ghost predicate CutOffBySome(pages: seq<seq<Session>>, e: Session) {
    exists p :: 0 <= p < |pages| - 1 && CutOff(pages[p], e)
  }

  lemma CutOffStep(page: seq<Session>, rest: seq<seq<Session>>, e: Session)
    requires rest != []
    ensures CutOffBySome([page] + rest, e) <==> CutOff(page, e) || CutOffBySome(rest, e)
  {
    var pages := [page] + rest;
    assert pages[0] == page;
    assert forall p :: 0 <= p < |rest| ==> pages[p + 1] == rest[p];
    assert forall p :: 1 <= p < |pages| ==> pages[p] == rest[p - 1];
  }

  lemma CutOffByFirst(s: seq<Session>, k: nat, e: Session)
    requires LIMIT <= k <= |s| && Latest(s) && Distinct(s) && e in s
    requires forall i :: LIMIT <= i < k ==> s[i].updated == s[LIMIT - 1].updated
    requires forall i :: k <= i < |s| ==> s[i].updated < s[LIMIT - 1].updated
    ensures CutOff(s[..LIMIT], e) <==> e in s[LIMIT..k]
    ensures e in s[k..] ==> e !in s[LIMIT..k]
  {
    var i :| 0 <= i < |s| && s[i] == e;
    assert i < LIMIT ==> s[..LIMIT][i] == e;
    assert LIMIT <= i < k ==> s[LIMIT..k][i - LIMIT] == e;
  }

  lemma InTail(s: seq<Session>, k: nat, i: nat)
    requires k <= |s| && i < |s|
    ensures i >= k ==> s[i] in s[k..]
  {
    if i >= k {
      assert s[k..][i - k] == s[i];
    }
  }

  lemma NotCutOffLater(s: seq<Session>, k: nat, e: Session)
    requires LIMIT <= k <= |s| && Latest(s) && e in s && e !in s[k..]
    requires forall i :: LIMIT <= i < k ==> s[i].updated == s[LIMIT - 1].updated
    requires forall i :: k <= i < |s| ==> s[i].updated < s[LIMIT - 1].updated
    requires forall p :: 0 <= p < |Pages(s[k..])| ==> forall x :: x in Pages(s[k..])[p] ==> x in s[k..]
    ensures !CutOffBySome(Pages(s[k..]), e)
  {
    hide Pages;
    var i :| 0 <= i < |s| && s[i] == e;
    InTail(s, k, i);
    assert e.updated >= s[LIMIT - 1].updated;
    var rest := Pages(s[k..]);
    forall p | 0 <= p < |rest| - 1
      ensures !CutOff(rest[p], e)
    {
      if rest[p] != [] {
        assert rest[p][|rest[p]| - 1] in rest[p];
        assert rest[p][|rest[p]| - 1] in s[k..];
      }
    }
  }

  ghost predicate CutOff(page: seq<Session>, e: Session) {
    page != [] && e.updated == page[|page| - 1].updated && e !in page
  }

  lemma {:induction false} LaterPagesEarlier(s: seq<Session>)
    requires Latest(s)
    ensures forall p :: 0 <= p < |Pages(s)| ==> forall e :: e in Pages(s)[p] ==> e in s
    decreases |s|
  {
    if |s| > LIMIT {
      var k := Divides(s);
      LaterPagesEarlier(s[k..]);
      assert forall p :: 1 <= p < |Pages(s)| ==> Pages(s)[p] == Pages(s[k..])[p - 1];
    }
  }

  lemma {:induction false} MissedAreThere(s: seq<Session>)
    requires Latest(s)
    ensures forall e :: e in Missed(s) ==> e in s
    decreases |s|
  {
    if |s| > LIMIT {
      var k := Divides(s);
      MissedAreThere(s[k..]);
    }
  }

  /** With distinct timestamps nothing is missed and nothing is shown twice. */
  lemma {:induction false} DistinctTimesShowAll(s: seq<Session>)
    requires forall i, j :: 0 <= i < j < |s| ==> s[j].updated < s[i].updated
    ensures Flatten(Pages(s)) == s
    decreases |s|
  {
    if |s| > LIMIT {
      var k := Divides(s);
      assert s[LIMIT].updated < s[LIMIT - 1].updated;
      DistinctTimesShowAll(s[k..]);
      assert Flatten(Pages(s)) == s[..LIMIT] + Flatten(Pages(s[k..]));
    } else {
      assert [s][1..] == [] && Flatten([s]) == s;
    }
  }

  // ---------- The protocol ----------

  /** There is at most one way to follow the cursors. */
  lemma {:induction false} FollowsUnique(
    sorted: seq<Session>, cursor: Option<int>, a: seq<seq<Session>>, b: seq<seq<Session>>)
    requires Follows(sorted, cursor, a) && Follows(sorted, cursor, b)
    ensures a == b
    decreases |a|
  {
    var next := Respond(sorted, cursor).next;
    if next.Some? {
      FollowsUnique(sorted, next, a[1..], b[1..]);
    }
    assert a == [a[0]] + a[1..] && b == [b[0]] + b[1..];
  }

  lemma {:induction false} EarlierTwice(entries: seq<Session>, t: int, u: int)
    requires u <= t
    ensures Earlier(Earlier(entries, t), u) == Earlier(entries, u)
  {
    if entries != [] {
      EarlierTwice(entries[1..], t, u);
      var rest := Earlier(entries[1..], t);
      if entries[0].updated < t {
        assert ([entries[0]] + rest)[1..] == rest;
      } else {
        assert Earlier(entries, t) == rest;
      }
    }
  }

  /** If no full page of the sorted list ends at a negative time, following the cursors ends, with these
      pages. */
  lemma {:induction false} CursorsFollowPages(sorted: seq<Session>, cursor: Option<int>)
    requires Latest(sorted) && CursorsExact(Pages(After(sorted, cursor)))
    ensures Follows(sorted, cursor, Pages(After(sorted, cursor)))
    decreases |After(sorted, cursor)|
  {
    var s := After(sorted, cursor);
    if |s| > LIMIT {
      var t := NextAfter(sorted, cursor);
      var pages := Pages(s);
      assert EndsAtCursor(pages[0]) && pages[1..] == Pages(After(sorted, Some(t)));
      ExactLater(pages);
      CursorsFollowPages(sorted, Some(t));
    }
  }

  /** What a full page leaves to the next request, if the cursor is exact. */
  lemma NextAfter(sorted: seq<Session>, cursor: Option<int>) returns (t: int)
    requires Latest(sorted) && |After(sorted, cursor)| > LIMIT
    ensures var s := After(sorted, cursor);
      && t == s[LIMIT - 1].updated && Earlier(s, t) == After(sorted, Some(t))
      && |Earlier(s, t)| < |s|
  {
    var s := After(sorted, cursor);
    t := s[LIMIT - 1].updated;
    EarlierShrinks(s);
    if cursor.Some? {
      assert s[LIMIT - 1] in s;
      EarlierHas(sorted, cursor.value, s[LIMIT - 1]);
      EarlierTwice(sorted, cursor.value, t);
    }
  }

  lemma ExactLater(pages: seq<seq<Session>>)
    requires pages != []
    ensures |pages| == 1 ==> CursorsExact(pages)
    ensures |pages| > 1 ==> (CursorsExact(pages) <==> EndsAtCursor(pages[0]) && CursorsExact(pages[1..]))
  {
    if |pages| > 1 {
      var later := pages[1..];
      assert forall p :: 0 <= p < |later| ==> later[p] == pages[p + 1];
      assert forall p :: 1 <= p < |pages| ==> pages[p] == later[p - 1];
    }
  }

  /** A client whose cursors were exact has got the pages of the sorted list. */
  lemma {:induction false} FollowedArePages(sorted: seq<Session>, cursor: Option<int>, pages: seq<seq<Session>>)
    requires Latest(sorted) && Follows(sorted, cursor, pages) && CursorsExact(pages)
    ensures pages == Pages(After(sorted, cursor))
    decreases |pages|
  {
    assert pages == [pages[0]] + pages[1..];
    if Respond(sorted, cursor).next.Some? {
      var t := NextAfter(sorted, cursor);
      ExactLater(pages);
      FollowedArePages(sorted, Some(t), pages[1..]);
    }
  }

  lemma AfterSuffix(sorted: seq<Session>, cursor: Option<int>)
    requires Latest(sorted)
    ensures Latest(After(sorted, cursor)) && forall e :: e in After(sorted, cursor) ==> e in sorted
  {
    if cursor.Some? {
      var k := EarlierIsSuffix(sorted, cursor.value);
    }
  }

  lemma {:induction false} EntriesAreFrom(live: seq<Session>, server: seq<Session>)
    ensures forall e :: e in Entries(live, server) ==> e in live || e in server
  {
    if live != [] {
      EntriesAreFrom(live[1..], server);
    }
  }

  lemma {:induction false} EntriesDistinct(live: seq<Session>, server: seq<Session>)
    requires DistinctIds(live) && DistinctIds(server)
    ensures DistinctIds(Entries(live, server))
  {
    if live != [] {
      EntriesDistinct(live[1..], server);
      EntriesAreFrom(live[1..], server);
      var rest := Entries(live[1..], server);
      if !Listed(server, live[0].id) {
        forall j | 0 <= j < |rest|
          ensures rest[j].id != live[0].id
        {
          assert rest[j] in live[1..] || rest[j] in server;
        }
      }
    }
  }

  lemma DistinctFromIds(entries: seq<Session>)
    requires DistinctIds(entries)
    ensures Distinct(entries)
  {
    forall i, j | 0 <= i < j < |entries|
      ensures entries[i] != entries[j]
    {
      assert entries[i].id != entries[j].id;
    }
  }

  lemma {:induction false} OnceEach(s: seq<Session>, e: Session)
    requires Distinct(s)
    ensures multiset(s)[e] <= 1
  {
    if s != [] {
      OnceEach(s[1..], e);
      assert s == [s[0]] + s[1..];
      assert s[0] !in s[1..];
    }
  }

  lemma DistinctWhenOnce(s: seq<Session>)
    requires forall e :: multiset(s)[e] <= 1
    ensures Distinct(s)
  {
    forall i, j | 0 <= i < j < |s|
      ensures s[i] != s[j]
    {
      assert s == s[..j] + s[j..];
      assert s[i] in s[..j] && s[j] in s[j..];
      assert multiset(s)[s[i]] == multiset(s[..j])[s[i]] + multiset(s[j..])[s[i]];
    }
  }

  /** A client that follows the cursors to their end gets pages that are disjoint exactly when none but the
      last ends at a negative time; then they are jointly latest first, and lack exactly the entries cut
      off by the end of a full page. */
  lemma FollowingCursors(live: seq<Session>, server: seq<Session>, pages: seq<seq<Session>>)
    requires DistinctIds(live) && DistinctIds(server)
    requires Follows(SortLatest(Entries(live, server)), None, pages)
    ensures Distinct(Flatten(pages)) <==> CursorsExact(pages)
    ensures CursorsExact(pages) ==> Latest(Flatten(pages))
    ensures CursorsExact(pages) ==> forall e ::
      e in Flatten(pages) <==> e in Entries(live, server) && !CutOffBySome(pages, e)
  {
    EntriesDistinct(live, server);
    DistinctFromIds(Entries(live, server));
    PagesOfEntries(Entries(live, server), pages);
  }

  lemma PagesOfEntries(entries: seq<Session>, pages: seq<seq<Session>>)
    requires Distinct(entries) && Follows(SortLatest(entries), None, pages)
    ensures Distinct(Flatten(pages)) <==> CursorsExact(pages)
    ensures CursorsExact(pages) ==> Latest(Flatten(pages))
    ensures CursorsExact(pages) ==>
      forall e :: e in Flatten(pages) <==> e in entries && !CutOffBySome(pages, e)
  {
    hide SortLatest, Follows, Pages, Flatten, CutOffBySome, Distinct, CursorsExact;
    var sorted := SortLatest(entries);
    SortLatestSorts(entries);
    SortedDistinct(entries);
    if CursorsExact(pages) {
      FollowedArePages(sorted, None, pages);
      PagesDescend(sorted);
      PagesDistinct(sorted);
      forall e
        ensures e in Flatten(pages) <==> e in entries && !CutOffBySome(pages, e)
      {
        ShownUnlessCutOff(sorted, e);
        SameMembers(entries, sorted, e);
      }
    } else {
      ShownTwice(sorted, None, pages);
    }
  }

  lemma SortedDistinct(entries: seq<Session>)
    requires Distinct(entries)
    ensures Distinct(SortLatest(entries))
  {
    SortLatestSorts(entries);
    forall e
      ensures multiset(SortLatest(entries))[e] <= 1
    {
      OnceEach(entries, e);
    }
    DistinctWhenOnce(SortLatest(entries));
  }

  lemma PagesDistinct(sorted: seq<Session>)
    requires Latest(sorted) && Distinct(sorted)
    ensures Distinct(Flatten(Pages(sorted)))
  {
    var shown, missed := Flatten(Pages(sorted)), Missed(sorted);
    PagesConserve(sorted);
    forall e
      ensures multiset(shown)[e] <= 1
    {
      OnceEach(sorted, e);
      assert multiset(sorted)[e] == multiset(shown)[e] + multiset(missed)[e];
    }
    DistinctWhenOnce(shown);
  }

  /** After a full page that ends at a negative time, the next page shows its last entry again. */
  lemma {:induction false} ShownTwice(sorted: seq<Session>, cursor: Option<int>, pages: seq<seq<Session>>)
    requires Latest(sorted) && (cursor.Some? ==> cursor.value >= 0)
    requires Follows(sorted, cursor, pages) && !CursorsExact(pages)
    ensures !Distinct(Flatten(pages))
    decreases |pages|
  {
    ExactLater(pages);
    var later := pages[1..];
    if CursorsExact(later) {
      var e := pages[0][|pages[0]| - 1];
      if |Negatives(sorted)| > LIMIT {
        NeverEnds(sorted, cursor, pages);
        assert false;
      }
      AfterHas(sorted, cursor, e);
      EarlierHas(sorted, 0, e);
      assert later[0] == Negatives(sorted);
      InFlatten(later, 0, e);
      TwiceInBoth(pages[0], Flatten(later), e);
    } else {
      ShownTwice(sorted, Respond(sorted, cursor).next, later);
      DistinctTail(pages[0], Flatten(later));
    }
  }

  lemma AfterHas(sorted: seq<Session>, cursor: Option<int>, e: Session)
    requires e in Respond(sorted, cursor).page
    ensures e in sorted
  {
    assert e in After(sorted, cursor);
    if cursor.Some? {
      EarlierHas(sorted, cursor.value, e);
    }
  }

  lemma {:induction false} InFlatten(pages: seq<seq<Session>>, p: nat, e: Session)
    requires p < |pages| && e in pages[p]
    ensures e in Flatten(pages)
  {
    if p > 0 {
      InFlatten(pages[1..], p - 1, e);
    }
  }

  lemma TwiceInBoth(a: seq<Session>, b: seq<Session>, e: Session)
    requires e in a && e in b
    ensures !Distinct(a + b)
  {
    var i :| 0 <= i < |a| && a[i] == e;
    var j :| 0 <= j < |b| && b[j] == e;
    assert (a + b)[i] == (a + b)[|a| + j];
  }

  lemma DistinctTail(a: seq<Session>, b: seq<Session>)
    requires !Distinct(b)
    ensures !Distinct(a + b)
  {
    var i, j :| 0 <= i < j < |b| && b[i] == b[j];
    assert (a + b)[|a| + i] == (a + b)[|a| + j];
  }

  lemma SameMembers(a: seq<Session>, b: seq<Session>, e: Session)
    requires multiset(a) == multiset(b)
    ensures e in a <==> e in b
  {
    assert e in a <==> e in multiset(a);
    assert e in b <==> e in multiset(b);
  }

  lemma ShownUnlessCutOff(sorted: seq<Session>, e: Session)
    requires Latest(sorted) && Distinct(sorted)
    ensures e in Flatten(Pages(sorted)) <==> e in sorted && !CutOffBySome(Pages(sorted), e)
  {
    PagesConserve(sorted);
    OnceEach(sorted, e);
    assert e in sorted <==> e in multiset(sorted);
    assert e in Flatten(Pages(sorted)) <==> e in multiset(Flatten(Pages(sorted)));
    assert e in Missed(sorted) <==> e in multiset(Missed(sorted));
    if e in sorted {
      MissedExactly(sorted, e);
    }
  }

  // ---------- Negative timestamps ----------

  /** Once more than a page of sessions is dated before 1970 every response has a cursor. */
  lemma {:induction false} NeverEnds(sorted: seq<Session>, cursor: Option<int>, pages: seq<seq<Session>>)
    requires |Negatives(sorted)| > LIMIT && (cursor.Some? ==> cursor.value >= 0)
    ensures !Follows(sorted, cursor, pages)
    decreases |pages|
  {
    EarlierGrows(sorted, cursor);
    if pages != [] {
      NeverEnds(sorted, Respond(sorted, cursor).next, pages[1..]);
    }
  }

  lemma {:induction false} EarlierGrows(entries: seq<Session>, cursor: Option<int>)
    requires cursor.Some? ==> cursor.value >= 0
    ensures |Negatives(entries)| <= |After(entries, cursor)|
  {
    if entries != [] {
      EarlierGrows(entries[1..], cursor);
    }
  }

  /** Otherwise following the cursors ends. */
  lemma {:induction false} Ends(sorted: seq<Session>, cursor: Option<int>) returns (pages: seq<seq<Session>>)
    requires Latest(sorted) && |Negatives(sorted)| <= LIMIT
    ensures Follows(sorted, cursor, pages)
    decreases |After(sorted, cursor)|
  {
    var s, response := After(sorted, cursor), Respond(sorted, cursor);
    AfterSuffix(sorted, cursor);
    if |s| <= LIMIT {
      pages := [response.page];
    } else if s[LIMIT - 1].updated < 0 {
      assert Respond(sorted, Some(0)).next == None;
      pages := [response.page, Respond(sorted, Some(0)).page];
      assert pages[1..] == [Respond(sorted, Some(0)).page];
    } else {
      var t := s[LIMIT - 1].updated;
      EarlierShrinks(s);
      if cursor.Some? {
        assert s[LIMIT - 1] in s;
        EarlierHas(sorted, cursor.value, s[LIMIT - 1]);
        EarlierTwice(sorted, cursor.value, t);
      }
      var later := Ends(sorted, Some(t));
      pages := [response.page] + later;
      assert pages[1..] == later;
    }
  }

  ghost predicate Followable(sorted: seq<Session>) {
    exists pages: seq<seq<Session>> :: Follows(sorted, None, pages)
  }

  /** Following the cursors from the start ends exactly when no more than one page of sessions is dated
      before 1970: a cursor cannot say an earlier time than that. */
  lemma EndsIffFewNegatives(sorted: seq<Session>)
    requires Latest(sorted)
    ensures Followable(sorted) <==> |Negatives(sorted)| <= LIMIT
  {
    if |Negatives(sorted)| <= LIMIT {
      var pages := Ends(sorted, None);
      assert Follows(sorted, None, pages);
    } else {
      forall pages: seq<seq<Session>>
        ensures !Follows(sorted, None, pages)
      {
        NeverEnds(sorted, None, pages);
      }
    }
  }

  ghost predicate ShowsOnce(sorted: seq<Session>) {
    exists pages: seq<seq<Session>> :: Follows(sorted, None, pages) && Distinct(Flatten(pages))
  }

  /** Following the cursors ends and shows nothing twice exactly when no full page of the sorted list ends
      at a negative time, as when there is no negative time. */
  lemma ShowsOnceIff(sorted: seq<Session>)
    requires Latest(sorted) && Distinct(sorted)
    ensures ShowsOnce(sorted) <==> CursorsExact(Pages(sorted))
    ensures (forall e :: e in sorted ==> e.updated >= 0) ==> CursorsExact(Pages(sorted))
  {
    hide Follows, Pages, Flatten, Distinct;
    if CursorsExact(Pages(sorted)) {
      CursorsFollowPages(sorted, None);
      PagesDistinct(sorted);
    }
    forall pages: seq<seq<Session>> | Follows(sorted, None, pages) && Distinct(Flatten(pages))
      ensures CursorsExact(Pages(sorted))
    {
      if CursorsExact(pages) {
        FollowedArePages(sorted, None, pages);
      } else {
        ShownTwice(sorted, None, pages);
      }
    }
    LaterPagesEarlier(sorted);
    forall p | 0 <= p < |Pages(sorted)| - 1 && forall e :: e in sorted ==> e.updated >= 0
      ensures EndsAtCursor(Pages(sorted)[p])
    {
      var page := Pages(sorted)[p];
      assert page != [] ==> page[|page| - 1] in page;
    }
  }
}
