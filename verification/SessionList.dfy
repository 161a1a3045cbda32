/** Listing sessions page by page (crates/oc-acp/src/service.rs). Timestamps are whole milliseconds. */
module SessionList {
  import opened Wrappers
  import opened Text

  datatype Session = Session(id: string, updated: int)

  const LIMIT := 100

  // ---------- One request ----------

  /** Whether the server lists a session. */
  predicate Listed(server: seq<Session>, id: string) {
    exists s :: s in server && s.id == id
  }

  /** The live sessions the server does not list, then the server's. */
  function Entries(live: seq<Session>, server: seq<Session>): seq<Session> {
    if live == [] then server
    else (if Listed(server, live[0].id) then [] else [live[0]]) + Entries(live[1..], server)
  }

  function InsertEntry(e: Session, sorted: seq<Session>): seq<Session> {
    if sorted == [] || sorted[0].updated <= e.updated then [e] + sorted else [sorted[0]] + InsertEntry(e, sorted[1..])
  }

  /** The stable sort, latest first. */
  function SortLatest(entries: seq<Session>): seq<Session> {
    if entries == [] then [] else InsertEntry(entries[0], SortLatest(entries[1..]))
  }

  /** The entries before a point in time. */
  function Earlier(entries: seq<Session>, than: int): seq<Session> {
    if entries == [] then []
    else (if entries[0].updated < than then [entries[0]] else []) + Earlier(entries[1..], than)
  }

  function After(sorted: seq<Session>, cursor: Option<int>): seq<Session> {
    match cursor case None => sorted case Some(t) => Earlier(sorted, t)
  }

  /** `as u64` on a timestamp. */
  function AsU64(t: int): nat {
    if t < 0 then 0 else t
  }

  datatype Response = Response(page: seq<Session>, next: Option<int>)

  function Respond(sorted: seq<Session>, cursor: Option<int>): Response {
    var filtered := After(sorted, cursor);
    if |filtered| <= LIMIT then Response(filtered, None)
    else Response(filtered[..LIMIT], Some(AsU64(filtered[LIMIT - 1].updated)))
  }

  method ListSessions(live: seq<Session>, server: seq<Session>, cursor: Option<int>) returns (r: Response)
    ensures r == Respond(SortLatest(Entries(live, server)), cursor)
  {
    var entries := JoinEntries(live, server);
    var sorted := SortLatest(entries);
    var filtered := sorted;
    if cursor.Some? {
      filtered := Earlier(sorted, cursor.value);
    }
    var page := if |filtered| <= LIMIT then filtered else filtered[..LIMIT];
    r := Response(page, if |filtered| > LIMIT then Some(AsU64(page[|page| - 1].updated)) else None);
  }

  /** A page has at most a hundred entries, and the time of a hundredth with more after it is the cursor. */
  lemma PageOfHundred(sorted: seq<Session>, cursor: Option<int>)
    ensures var rest, r := After(sorted, cursor), Respond(sorted, cursor);
      if |rest| <= 100 then r == Response(rest, None)
      else |r.page| == 100 && r.page <= rest && r.next == Some(if rest[99].updated < 0 then 0 else rest[99].updated)
  {
  }

  method JoinEntries(live: seq<Session>, server: seq<Session>) returns (entries: seq<Session>)
    ensures entries == Entries(live, server)
  {
    entries := [];
    assert [] + Entries(live[0..], server) == Entries(live, server);
    for i := 0 to |live|
      invariant Entries(live, server) == entries + Entries(live[i..], server)
    {
      hide Entries, Listed;
      EntriesStep(live, server, i);
      if !Listed(server, live[i].id) {
        ConcatAssociative(entries, [live[i]], Entries(live[i + 1..], server));
        entries := entries + [live[i]];
      }
    }
    entries := entries + server;
  }

  lemma EntriesStep(live: seq<Session>, server: seq<Session>, i: nat)
    requires i < |live|
    ensures Entries(live[i..], server) ==
      if Listed(server, live[i].id) then Entries(live[i + 1..], server)
      else [live[i]] + Entries(live[i + 1..], server)
  {
    assert live[i..][1..] == live[i + 1..] && live[i..][0] == live[i];
  }

  // ---------- The list the pages are cut from ----------

  ghost predicate Latest(entries: seq<Session>) {
    forall i, j :: 0 <= i < j < |entries| ==> entries[j].updated <= entries[i].updated
  }

  ghost predicate DistinctIds(entries: seq<Session>) {
    forall i, j :: 0 <= i < j < |entries| ==> entries[i].id != entries[j].id
  }

  function New(live: seq<Session>, server: seq<Session>): seq<Session> {
    if live == [] then []
    else (if Listed(server, live[0].id) then [] else [live[0]]) + New(live[1..], server)
  }

  /** The entries are the live sessions that no session of the server's has the id of, in their order, and
      then the server's. */
  lemma EntriesAre(live: seq<Session>, server: seq<Session>) returns (places: seq<nat>)
    ensures |Entries(live, server)| == |places| + |server| && Entries(live, server)[|places|..] == server
    ensures forall j :: 0 <= j < |places| ==> places[j] < |live| && Entries(live, server)[j] == live[places[j]]
    ensures forall i, j :: 0 <= i < j < |places| ==> places[i] < places[j]
    ensures forall i: nat :: i in places <==> i < |live| && IsNew(live[i].id, server)
  {
    NewThenServer(live, server);
    places := NewPlaces(live, server);
  }

  lemma {:induction false} NewThenServer(live: seq<Session>, server: seq<Session>)
    ensures Entries(live, server) == New(live, server) + server
  {
    if live != [] {
      hide Listed;
      NewThenServer(live[1..], server);
      ConcatAssociative(if Listed(server, live[0].id) then [] else [live[0]], New(live[1..], server), server);
    } else {
      assert [] + server == server;
    }
  }

  lemma {:induction false} NewSnoc(live: seq<Session>, e: Session, server: seq<Session>)
    ensures New(live + [e], server) == if Listed(server, e.id) then New(live, server) else New(live, server) + [e]
  {
    hide Listed;
    var all := live + [e];
    if live == [] {
      assert all[1..] == [];
    } else {
      assert all[0] == live[0] && all[1..] == live[1..] + [e];
      NewSnoc(live[1..], e, server);
    }
  }

  ghost predicate ArePlaces(live: seq<Session>, server: seq<Session>, places: seq<nat>) {
    && |places| == |New(live, server)|
    && (forall j :: 0 <= j < |places| ==> places[j] < |live| && New(live, server)[j] == live[places[j]])
    && (forall i, j :: 0 <= i < j < |places| ==> places[i] < places[j])
    && forall i: nat :: i in places <==> i < |live| && IsNew(live[i].id, server)
  }

  lemma {:induction false} NewPlaces(live: seq<Session>, server: seq<Session>) returns (places: seq<nat>)
    ensures ArePlaces(live, server, places)
  {
    places := [];
    if live != [] {
      hide ArePlaces;
      var n := |live| - 1;
      assert live == live[..n] + [live[n]];
      var before := NewPlaces(live[..n], server);
      places := OneMorePlace(live[..n], live[n], server, before);
    }
  }

  lemma OneMorePlace(live: seq<Session>, e: Session, server: seq<Session>, before: seq<nat>)
    returns (places: seq<nat>)
    requires ArePlaces(live, server, before)
    ensures ArePlaces(live + [e], server, places)
  {
    hide New, IsNew, Listed;
    var all := live + [e];
    NewSnoc(live, e, server);
    ListedOrNew(server, e.id);
    assert all[|live|] == e && forall i :: 0 <= i < |live| ==> all[i] == live[i];
    if Listed(server, e.id) {
      places := before;
    } else {
      places := before + [|live|];
    }
  }

  lemma ListedOrNew(server: seq<Session>, id: string)
    ensures Listed(server, id) <==> !IsNew(id, server)
  {
  }

  ghost predicate IsNew(id: string, server: seq<Session>) {
    forall s :: s in server ==> s.id != id
  }

  lemma {:induction false} InsertFirst(e: Session, sorted: seq<Session>, t: int)
    ensures Sharing(InsertEntry(e, sorted), t) == Sharing([e] + sorted, t)
  {
    assert ([e] + sorted)[1..] == sorted;
    if sorted != [] && sorted[0].updated > e.updated {
      InsertFirst(e, sorted[1..], t);
      assert ([e] + sorted[1..])[1..] == sorted[1..];
      var rest := InsertEntry(e, sorted[1..]);
      assert ([sorted[0]] + rest)[1..] == rest;
    }
  }

  /** Sessions of one time stay in their order. */
  lemma {:induction false} SortIsStable(entries: seq<Session>, t: int)
    ensures Sharing(SortLatest(entries), t) == Sharing(entries, t)
  {
    if entries != [] {
      var later := SortLatest(entries[1..]);
      SortIsStable(entries[1..], t);
      InsertFirst(entries[0], later, t);
      assert ([entries[0]] + later)[1..] == later;
    }
  }

  lemma {:induction false} InsertAdds(e: Session, sorted: seq<Session>)
    ensures multiset(InsertEntry(e, sorted)) == multiset{e} + multiset(sorted)
  {
    if sorted != [] && sorted[0].updated > e.updated {
      InsertAdds(e, sorted[1..]);
      assert sorted == [sorted[0]] + sorted[1..];
    }
  }

  lemma {:induction false} InsertKeepsLatest(e: Session, sorted: seq<Session>)
    requires Latest(sorted)
    ensures Latest(InsertEntry(e, sorted))
  {
    if sorted != [] && sorted[0].updated > e.updated {
      InsertKeepsLatest(e, sorted[1..]);
      InsertAdds(e, sorted[1..]);
      var r := InsertEntry(e, sorted[1..]);
      forall j | 0 <= j < |r|
        ensures r[j].updated <= sorted[0].updated
      {
        assert r[j] in multiset(r);
        assert r[j] == e || r[j] in sorted[1..];
      }
    }
  }

  lemma {:induction false} SortLatestSorts(entries: seq<Session>)
    ensures Latest(SortLatest(entries)) && multiset(SortLatest(entries)) == multiset(entries)
  {
    if entries != [] {
      SortLatestSorts(entries[1..]);
      InsertKeepsLatest(entries[0], SortLatest(entries[1..]));
      InsertAdds(entries[0], SortLatest(entries[1..]));
      assert entries == [entries[0]] + entries[1..];
    }
  }

  lemma {:induction false} EarlierHas(entries: seq<Session>, than: int, e: Session)
    ensures e in Earlier(entries, than) <==> e in entries && e.updated < than
    ensures |Earlier(entries, than)| <= |entries|
  {
    if entries != [] {
      EarlierHas(entries[1..], than, e);
      assert entries == [entries[0]] + entries[1..];
    }
  }

  lemma {:induction false} AllEarlier(entries: seq<Session>, than: int)
    requires forall i :: 0 <= i < |entries| ==> entries[i].updated < than
    ensures Earlier(entries, than) == entries
  {
    if entries != [] {
      AllEarlier(entries[1..], than);
      assert entries == [entries[0]] + entries[1..];
    }
  }

  lemma EarlierStep(entries: seq<Session>, than: int)
    requires entries != [] && entries[0].updated >= than
    ensures Earlier(entries, than) == Earlier(entries[1..], than)
  {
  }

  /** In a sorted list the earlier entries are its end. */
  lemma {:induction false} EarlierIsSuffix(entries: seq<Session>, than: int) returns (k: nat)
    requires Latest(entries)
    ensures k <= |entries| && Earlier(entries, than) == entries[k..]
    ensures forall i :: 0 <= i < |entries| ==> (entries[i].updated < than <==> k <= i)
  {
    if entries == [] {
      k := 0;
    } else if entries[0].updated < than {
      k := 0;
      AllEarlier(entries, than);
    } else {
      hide Earlier;
      var j := EarlierIsSuffix(entries[1..], than);
      EarlierStep(entries, than);
      k := j + 1;
      assert entries[1..][j..] == entries[k..];
      forall i | 0 <= i < |entries|
        ensures entries[i].updated < than <==> k <= i
      {
        if i > 0 {
          assert entries[i] == entries[1..][i - 1];
        }
      }
    }
  }

  // ---------- All the pages ----------

  /** The pages of a sorted list: a full page, and those of what is earlier than its last entry. */
  function Pages(s: seq<Session>): seq<seq<Session>>
    decreases |s|
  {
    if |s| <= LIMIT then [s]
    else
      EarlierShrinks(s);
      [s[..LIMIT]] + Pages(Earlier(s, s[LIMIT - 1].updated))
  }

  /** The entries no page shows: those past a full page that share its last timestamp. */
  function Missed(s: seq<Session>): seq<Session>
    decreases |s|
  {
    if |s| <= LIMIT then []
    else
      EarlierShrinks(s);
      Sharing(s[LIMIT..], s[LIMIT - 1].updated) + Missed(Earlier(s, s[LIMIT - 1].updated))
  }

  /** The entries of one time, in their order. */
  function Sharing(entries: seq<Session>, t: int): seq<Session> {
    if entries == [] then []
    else (if entries[0].updated == t then [entries[0]] else []) + Sharing(entries[1..], t)
  }

  lemma {:induction false} SharingHead(head: seq<Session>, tail: seq<Session>, t: int)
    requires forall i :: 0 <= i < |head| ==> head[i].updated == t
    requires forall i :: 0 <= i < |tail| ==> tail[i].updated != t
    ensures Sharing(head + tail, t) == head
    decreases |head| + |tail|
  {
    if head != [] {
      assert (head + tail)[1..] == head[1..] + tail;
      SharingHead(head[1..], tail, t);
      assert head == [head[0]] + head[1..];
    } else if tail != [] {
      assert head + tail == tail;
      SharingHead([], tail[1..], t);
      assert [] + tail[1..] == tail[1..];
    }
  }

  lemma {:induction false} EarlierShrinks(s: seq<Session>)
    requires |s| > LIMIT
    ensures |Earlier(s, s[LIMIT - 1].updated)| < |s|
  {
    EarlierSkips(s, s[LIMIT - 1].updated, LIMIT - 1);
  }

  lemma {:induction false} EarlierSkips(s: seq<Session>, than: int, i: nat)
    requires i < |s| && s[i].updated >= than
    ensures |Earlier(s, than)| < |s|
  {
    EarlierHas(s[1..], than, s[0]);
    if i > 0 {
      EarlierSkips(s[1..], than, i - 1);
    }
  }

  function Flatten(pages: seq<seq<Session>>): seq<Session> {
    if pages == [] then [] else pages[0] + Flatten(pages[1..])
  }

  lemma PagesStep(s: seq<Session>)
    requires |s| > LIMIT
    ensures var t := s[LIMIT - 1].updated;
      && Pages(s) == [s[..LIMIT]] + Pages(Earlier(s, t))
      && Missed(s) == Sharing(s[LIMIT..], t) + Missed(Earlier(s, t))
  {
  }

  /** How a full page divides a sorted list: the page, the entries missed, and the rest. */
  lemma Divides(s: seq<Session>) returns (k: nat)
    requires |s| > LIMIT && Latest(s)
    ensures LIMIT <= k <= |s| && Earlier(s, s[LIMIT - 1].updated) == s[k..] && Latest(s[k..])
    ensures Pages(s) == [s[..LIMIT]] + Pages(s[k..]) && Missed(s) == s[LIMIT..k] + Missed(s[k..])
    ensures forall i :: LIMIT <= i < k ==> s[i].updated == s[LIMIT - 1].updated
    ensures forall i :: k <= i < |s| ==> s[i].updated < s[LIMIT - 1].updated
    ensures s == s[..LIMIT] + s[LIMIT..k] + s[k..]
  {
    hide Earlier, Sharing, Pages, Missed;
    k := EarlierIsSuffix(s, s[LIMIT - 1].updated);
    PagesStep(s);
    assert s[LIMIT..] == s[LIMIT..k] + s[k..];
    forall i | LIMIT <= i < k
      ensures s[i].updated == s[LIMIT - 1].updated
    {
    }
    SharingHead(s[LIMIT..k], s[k..], s[LIMIT - 1].updated);
  }

  /** Every entry is shown once or missed. */
  lemma {:induction false} PagesConserve(s: seq<Session>)
    requires Latest(s)
    ensures multiset(s) == multiset(Flatten(Pages(s))) + multiset(Missed(s))
    decreases |s|
  {
    if |s| > LIMIT {
      var k := Divides(s);
      PagesConserve(s[k..]);
      assert Flatten(Pages(s)) == s[..LIMIT] + Flatten(Pages(s[k..]));
      assert multiset(s) == multiset(s[..LIMIT]) + multiset(s[LIMIT..k]) + multiset(s[k..]);
    } else {
      assert [s][1..] == [];
      assert Flatten([s]) == s;
    }
  }
}
