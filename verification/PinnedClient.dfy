/**
 * Reading all pages of a collection pinned to one revision, against a server whose store a writer may replace
 * between any two requests, and starting over once from the overview when the revision has gone.
 */
module PinnedClient {
  import opened Common
  import opened Paging

  // ---------------------------------------------------------------- the server

  datatype Store = Store(revision: string, rows: seq<Row>)

  /** What the server is like at the moment of a request. Besides serving, it may fail, may answer without
      looking at the pinned revision, and may lose the continuation of a page. */
  datatype Moment = Serving(store: Store) | Unpinned(store: Store) | LosesCursor(store: Store) | Failing(status: int)

  /** The world by request number. */
  type World = nat -> Moment

  predicate HasStore(m: Moment) { !m.Failing? }

  /** A revision is a digest of what is served, so it fixes the rows. */
  ghost predicate RevisionFixesRows(world: World) {
    forall t: nat, u: nat | HasStore(world(t)) && HasStore(world(u)) ::
      world(t).store.revision == world(u).store.revision ==> world(t).store.rows == world(u).store.rows
  }

  /** A cursor carries the last key of its page and the revision it was cut from. */
  datatype Cursor = Cursor(key: int, revision: string)

  datatype Response =
    | Paged(revision: string, items: seq<Row>, hasMore: bool, next: Option<Cursor>)
    | Conflicted(current: string)
    | Refused(status: int)

  /** One page request: a cursor of another revision conflicts, and so does a pinned revision that is not the
      current one. */
  function Answer(m: Moment, pinned: string, cursor: Option<Cursor>, limit: nat): Response
    requires limit >= 1
  {
    if m.Failing? then Refused(m.status)
    else
      var current := m.store.revision;
      if cursor.Some? && cursor.value.revision != current then Conflicted(current)
      else if pinned != current && !m.Unpinned? then Conflicted(current)
      else
        var page := PageOf(m.store.rows, if cursor.Some? then Some(cursor.value.key) else None, limit);
        Paged(current, page.items, page.next.Some?,
              if page.next.Some? && !m.LosesCursor? then Some(Cursor(page.next.value, current)) else None)
  }

  /** The server is up, and one of the revisions it is asked for is not the one it has. */
  ghost predicate AskedForAnother(m: Moment, pinned: string, cursor: Option<Cursor>) {
    && HasStore(m)
    && ((cursor.Some? && cursor.value.revision != m.store.revision)
        || (pinned != m.store.revision && !m.Unpinned?))
  }

  /** A page is served exactly at the revision its cursor was cut from and, if the server looks, at the pinned
      one; otherwise the answer is a conflict that names the revision there is. */
  lemma PagesAreOfTheirRevision(m: Moment, pinned: string, cursor: Option<Cursor>, limit: nat)
    requires limit >= 1
    ensures
      var a := Answer(m, pinned, cursor, limit);
      && (a.Refused? <==> m.Failing?)
      && (a.Conflicted? <==> !m.Failing? && AskedForAnother(m, pinned, cursor))
      && (a.Conflicted? ==> a.current == m.store.revision)
      && (a.Paged? ==> a.revision == m.store.revision)
  {
  }

  /** A page is the next rows of what is left after its cursor, up to the limit; when more are left it says so,
      and carries a cursor at the last key it served, unless the server loses it. */
  lemma PagesSayHowToGoOn(m: Moment, pinned: string, cursor: Option<Cursor>, limit: nat)
    requires limit >= 1 && Answer(m, pinned, cursor, limit).Paged?
    ensures
      var a, left := Answer(m, pinned, cursor, limit), Left(m.store.rows, KeyOf(cursor));
      && (a.hasMore <==> |left| > limit)
      && a.items == (if |left| > limit then left[..limit] else left)
      && a.next == (if |left| > limit && !m.LosesCursor? then Some(Cursor(left[limit - 1].key, m.store.revision))
                    else None)
  {
    LeftIsOrdered(m.store.rows, KeyOf(cursor));
    CutTakesPrefix(Left(m.store.rows, KeyOf(cursor)), limit);
  }

  // ---------------------------------------------------------------- the client

  datatype Failure = RevisionConflict | HttpError(status: int) | InvalidContinuation

  /** A status that is not success; 409 is always taken for a conflict. */
  function FailureOf(status: int): Failure { if status == 409 then RevisionConflict else HttpError(status) }

  datatype Fetched = Collected(items: seq<Row>, revision: string, pageCount: nat) | Thrown(failure: Failure)

  function Identities(rows: seq<Row>): set<string> { set r | r in rows :: r.identity }

  /** The rows without those whose identity is seen, or came before. */
  function Fresh(rows: seq<Row>, seen: set<string>): seq<Row> {
    if rows == [] then []
    else if rows[0].identity in seen then Fresh(rows[1..], seen)
    else [rows[0]] + Fresh(rows[1..], seen + {rows[0].identity})
  }

  /** A page's items, added to those collected unless their identity is seen. */
  method Merge(items: seq<Row>, identities: set<string>, page: seq<Row>) returns (merged: seq<Row>, seen: set<string>)
    ensures merged == items + Fresh(page, identities) && seen == identities + Identities(page)
  {
    merged, seen := items, identities;
    for i := 0 to |page|
      invariant merged + Fresh(page[i..], seen) == items + Fresh(page, identities)
      invariant seen == identities + Identities(page[..i])
    {
      assert page[i..][0] == page[i] && page[i..][1..] == page[i + 1..];
      assert page[..i + 1] == page[..i] + [page[i]];
      if page[i].identity !in seen {
        assert merged + ([page[i]] + Fresh(page[i + 1..], seen + {page[i].identity})) ==
          merged + [page[i]] + Fresh(page[i + 1..], seen + {page[i].identity});
        merged := merged + [page[i]];
        seen := seen + {page[i].identity};
      }
    }
    assert page[..|page|] == page;
  }

  ghost function SeenAfter(rows: seq<Row>, seen: set<string>): set<string> {
    if rows == [] then seen else SeenAfter(rows[1..], seen + {rows[0].identity})
  }

  lemma {:induction false} SeenAfterAddsAll(rows: seq<Row>, seen: set<string>)
    ensures SeenAfter(rows, seen) == seen + Identities(rows)
  {
    if rows != [] {
      SeenAfterAddsAll(rows[1..], seen + {rows[0].identity});
      IdentitiesCons(rows[0], rows[1..]);
      assert rows == [rows[0]] + rows[1..];
    }
  }

  lemma IdentitiesCons(first: Row, rest: seq<Row>)
    ensures Identities([first] + rest) == {first.identity} + Identities(rest)
  {
  }

  lemma {:induction false} FreshOfBoth(a: seq<Row>, b: seq<Row>, seen: set<string>)
    ensures Fresh(a + b, seen) == Fresh(a, seen) + Fresh(b, SeenAfter(a, seen))
  {
    if a == [] {
      assert a + b == b;
    } else {
      var first, rest := a[0], a[1..];
      FreshOfBoth(rest, b, seen + {first.identity});
      FreshCons(first, rest + b, seen);
      FreshCons(first, rest, seen);
      assert a == [first] + rest && a + b == [first] + (rest + b);
    }
  }

  lemma FreshOfTwo(a: seq<Row>, b: seq<Row>, seen: set<string>)
    ensures Fresh(a + b, seen) == Fresh(a, seen) + Fresh(b, seen + Identities(a))
  {
    FreshOfBoth(a, b, seen);
    SeenAfterAddsAll(a, seen);
  }

  lemma FreshCons(r: Row, rest: seq<Row>, seen: set<string>)
    ensures Fresh([r] + rest, seen) ==
      if r.identity in seen then Fresh(rest, seen + {r.identity}) else [r] + Fresh(rest, seen + {r.identity})
  {
    assert ([r] + rest)[1..] == rest;
    assert r.identity in seen ==> seen + {r.identity} == seen;
  }

  ghost predicate DistinctIdentities(rows: seq<Row>) {
    forall i, j | 0 <= i < j < |rows| :: rows[i].identity != rows[j].identity
  }

  /** Nothing is left out exactly when no row's identity is seen or shared with another's. */
  lemma {:induction false} FreshIsAllIffDistinct(rows: seq<Row>, seen: set<string>)
    ensures |Fresh(rows, seen)| <= |rows|
    ensures Fresh(rows, seen) == rows <==> DistinctIdentities(rows) && Identities(rows) !! seen
  {
    if rows != [] {
      var first, rest := rows[0], rows[1..];
      assert rows == [first] + rest;
      assert Identities(rows) == {first.identity} + Identities(rest);
      DistinctFirst(first, rest);
      FreshIsAllIffDistinct(rest, seen);
      FreshIsAllIffDistinct(rest, seen + {first.identity});
    }
  }

  lemma DistinctFirst(first: Row, rest: seq<Row>)
    ensures DistinctIdentities([first] + rest) <==> DistinctIdentities(rest) && first.identity !in Identities(rest)
  {
    var rows := [first] + rest;
    if DistinctIdentities(rows) {
      forall i, j | 0 <= i < j < |rest| ensures rest[i].identity != rest[j].identity {
        assert rows[i + 1].identity != rows[j + 1].identity;
      }
      forall i | 0 <= i < |rest| ensures rest[i].identity != first.identity {
        assert rows[0].identity != rows[i + 1].identity;
      }
    } else {
      var i, j :| 0 <= i < j < |rows| && rows[i].identity == rows[j].identity;
      if i > 0 { assert rest[i - 1].identity == rest[j - 1].identity; } else { assert rest[j - 1] in rest; }
    }
  }

  /** The whole collection of a revision, as the pages of its rows give it. */
  ghost function Collection(rows: seq<Row>, limit: nat): seq<Row>
    requires limit >= 1
  {
    Fresh(Walk(Sort(rows), limit), {})
  }

  ghost predicate AtRevision(m: Moment, revision: string) { HasStore(m) && m.store.revision == revision }

  function KeyOf(cursor: Option<Cursor>): Option<int> { if cursor.Some? then Some(cursor.value.key) else None }

  /** What is collected and what is still to come make up the collection, and so do the pages. */
  ghost predicate OnTheWay(
    rows: seq<Row>, limit: nat, after: Option<int>, items: seq<Row>, seen: set<string>, pages: nat) {
    && limit >= 1
    && items + Fresh(Walk(Left(rows, after), limit), seen) == Collection(rows, limit)
    && pages + PagesOf(Left(rows, after), limit) == PagesOf(Sort(rows), limit)
  }

  /** One page keeps that, and with no next key completes it. */
  lemma PageAdvances(rows: seq<Row>, limit: nat, after: Option<int>, items: seq<Row>, seen: set<string>, pages: nat)
    requires OnTheWay(rows, limit, after, items, seen, pages)
    ensures
      var page := PageOf(rows, after, limit);
      var merged := items + Fresh(page.items, seen);
      if page.next.None? then merged == Collection(rows, limit) && pages + 1 == PagesOf(Sort(rows), limit)
      else OnTheWay(rows, limit, page.next, merged, seen + Identities(page.items), pages + 1)
  {
    WalkTakesPage(rows, after, limit);
    var page := PageOf(rows, after, limit);
    if page.next.Some? {
      var rest := Walk(Left(rows, page.next), limit);
      FreshOfTwo(page.items, rest, seen);
      Reassociate(items, Fresh(page.items, seen), Fresh(rest, seen + Identities(page.items)));
    }
  }

  lemma Reassociate(a: seq<Row>, b: seq<Row>, c: seq<Row>)
    ensures a + (b + c) == a + b + c
  {
  }

  /** The failure that what is met at a request gives: at most one. */
  ghost predicate Explains(m: Moment, revision: string, failure: Failure) {
    match failure
    case RevisionConflict => if HasStore(m) then m.store.revision != revision else m.status == 409
    case HttpError(status) => m == Failing(status) && status != 409
    case InvalidContinuation => m.LosesCursor? && m.store.revision == revision
  }

  /** The server still serves the revision, and says how to go on. */
  ghost predicate Undisturbed(m: Moment, revision: string) { AtRevision(m, revision) && !m.LosesCursor? }

  ghost predicate UndisturbedFrom(world: World, start: nat, end: nat, revision: string) {
    forall t | start <= t < end :: Undisturbed(world(t), revision)
  }

  /** The result is the whole collection of the pinned revision, in its pages, as served at the start. */
  ghost predicate IsCollected(world: World, start: nat, end: nat, revision: string, limit: nat, result: Fetched) {
    && limit >= 1 && result.Collected? && AtRevision(world(start), revision) && result.revision == revision
    && result.items == Collection(world(start).store.rows, limit)
    && result.pageCount == PagesOf(Sort(world(start).store.rows), limit) == end - start
  }

  /** How many pages a fetch that starts at a request would read. */
  ghost function PagesAt(world: World, start: nat, limit: nat): nat
    requires limit >= 1
  {
    if HasStore(world(start)) then PagesOf(Sort(world(start).store.rows), limit) else 1
  }

  /** What a fetch comes to: undisturbed up to its last request, it has then either collected everything, or
      failed before that as its last request explains. */
  ghost predicate Fetches(world: World, start: nat, end: nat, revision: string, limit: nat, result: Fetched)
    requires limit >= 1
  {
    && start < end && UndisturbedFrom(world, start, end - 1, revision)
    && match result
       case Collected(_, _, _) =>
         IsCollected(world, start, end, revision, limit, result) && AtRevision(world(end - 1), revision)
       case Thrown(failure) =>
         && Explains(world(end - 1), revision, failure) && end - start <= PagesAt(world, start, limit)
         && (failure.InvalidContinuation? ==> end - start < PagesAt(world, start, limit))
  }

  /** The state of a fetch that has read some pages and continues after a cursor. */
  ghost predicate Fetching(
    world: World, start: nat, revision: string, limit: nat, rows: seq<Row>, cursor: Option<Cursor>,
                           items: seq<Row>, identities: set<string>, cursors: set<Cursor>, pages: nat) {
    && OnTheWay(rows, limit, KeyOf(cursor), items, identities, pages)
    && (HasStore(world(start)) ==> rows == world(start).store.rows)
    && (pages > 0 ==> AtRevision(world(start), revision))
    && (cursor.Some? ==> pages > 0 && cursor.value.revision == revision)
    && (forall c | c in cursors :: cursor.Some? && c.key <= cursor.value.key)
    && UndisturbedFrom(world, start, start + pages, revision)
  }

  /** A page answered at the pinned revision is a page of the pinned rows. */
  lemma PageIsOfRows(world: World, start: nat, revision: string, limit: nat, rows: seq<Row>, cursor: Option<Cursor>,
                     items: seq<Row>, identities: set<string>, cursors: set<Cursor>, pages: nat, response: Response)
    requires RevisionFixesRows(world)
    requires Fetching(world, start, revision, limit, rows, cursor, items, identities, cursors, pages)
    requires response == Answer(world(start + pages), revision, cursor, limit)
    requires response.Paged? && response.revision == revision
    ensures AtRevision(world(start), revision)
    ensures
      var page := PageOf(rows, KeyOf(cursor), limit);
      && response.items == page.items && response.hasMore == page.next.Some?
      && (response.next.Some? ==> page.next.Some? && response.next.value == Cursor(page.next.value, revision))
      && (page.next.Some? ==> (response.next.None? <==> world(start + pages).LosesCursor?))
    ensures AtRevision(world(start + pages), revision)
  {
    assert world(start + pages).store.rows == rows;
  }

  /** So the last page completes the collection, and any other leaves less to fetch after a new cursor. */
  lemma PageIsTaken(world: World, start: nat, revision: string, limit: nat, rows: seq<Row>, cursor: Option<Cursor>,
                    items: seq<Row>, identities: set<string>, cursors: set<Cursor>, pages: nat, next: Option<Cursor>)
    requires Fetching(world, start, revision, limit, rows, cursor, items, identities, cursors, pages)
    requires AtRevision(world(start), revision)
    requires next.Some? ==> Undisturbed(world(start + pages), revision)
    requires
      var page := PageOf(rows, KeyOf(cursor), limit);
      next.Some? ==> page.next.Some? && next.value == Cursor(page.next.value, revision)
    ensures
      var page := PageOf(rows, KeyOf(cursor), limit);
      var merged, seen := items + Fresh(page.items, identities), identities + Identities(page.items);
      && (page.next.None? ==> merged == Collection(rows, limit) && pages + 1 == PagesOf(Sort(rows), limit))
      && (next.Some? ==>
          && next.value !in cursors
          && Fetching(world, start, revision, limit, rows, next, merged, seen, cursors + {next.value}, pages + 1)
          && |Left(rows, KeyOf(next))| < |Left(rows, KeyOf(cursor))|)
      && (page.next.Some? ==> pages + 1 < PagesOf(Sort(rows), limit))
  {
    PageIsCutOffLeft(rows, KeyOf(cursor), limit);
    PageAdvances(rows, limit, KeyOf(cursor), items, identities, pages);
  }

  /** What one answer does to a fetch: it fails, explained by the moment; completes the collection; or leaves
      less to fetch after a new cursor. */
  lemma AnswerIsTaken(world: World, start: nat, revision: string, limit: nat, rows: seq<Row>, cursor: Option<Cursor>,
                      items: seq<Row>, identities: set<string>, cursors: set<Cursor>, pages: nat, response: Response)
    requires RevisionFixesRows(world)
    requires Fetching(world, start, revision, limit, rows, cursor, items, identities, cursors, pages)
    requires response == Answer(world(start + pages), revision, cursor, limit)
    ensures response.Refused? ==> Explains(world(start + pages), revision, FailureOf(response.status))
    ensures response.Conflicted? || (response.Paged? && response.revision != revision) ==>
      Explains(world(start + pages), revision, RevisionConflict)
    ensures response.Paged? && response.revision == revision ==>
      var merged, seen := items + Fresh(response.items, identities), identities + Identities(response.items);
      && AtRevision(world(start), revision)
      && (!response.hasMore ==> merged == Collection(rows, limit) && pages + 1 == PagesOf(Sort(rows), limit))
      && AtRevision(world(start + pages), revision)
      && (response.hasMore ==> pages + 1 < PagesOf(Sort(rows), limit))
      && (response.hasMore && response.next.None? ==> Explains(world(start + pages), revision, InvalidContinuation))
      && (response.hasMore && response.next.Some? ==>
          && response.next.value !in cursors
          && Fetching(
               world, start, revision, limit, rows, response.next, merged, seen, cursors + {response.next.value},
               pages + 1)
          && |Left(rows, KeyOf(response.next))| < |Left(rows, KeyOf(cursor))|)
  {
    if response.Paged? && response.revision == revision {
      PageIsOfRows(world, start, revision, limit, rows, cursor, items, identities, cursors, pages, response);
      PageIsTaken(world, start, revision, limit, rows, cursor, items, identities, cursors, pages, response.next);
    }
  }

  /** How one page read ends: with a failure, with everything collected, or with more to read. */
  datatype Turn = Fails(failure: Failure) | Finishes | Continues(cursor: Cursor)

  /** One page read, and the items and identities with the page's merged in. */
  method FetchPage(world: World, ghost start: nat, at: nat, revision: string, limit: nat, ghost rows: seq<Row>,
                   cursor: Option<Cursor>, items: seq<Row>, identities: set<string>, cursors: set<Cursor>)
    returns (turn: Turn, merged: seq<Row>, seen: set<string>)
    requires RevisionFixesRows(world) && start <= at
    requires Fetching(world, start, revision, limit, rows, cursor, items, identities, cursors, at - start)
    ensures turn.Fails? ==> Explains(world(at), revision, turn.failure)
    ensures turn.Fails? && turn.failure.InvalidContinuation? ==>
      AtRevision(world(start), revision) && at - start + 1 < PagesOf(Sort(rows), limit)
    ensures turn.Finishes? ==>
      AtRevision(world(start), revision) && merged == Collection(rows, limit)
        && at - start + 1 == PagesOf(Sort(rows), limit) && AtRevision(world(at), revision)
    ensures turn.Continues? ==>
      && Fetching(
           world, start, revision, limit, rows, Some(turn.cursor), merged, seen, cursors + {turn.cursor},
           at - start + 1)
      && |Left(rows, Some(turn.cursor.key))| < |Left(rows, KeyOf(cursor))|
  {
    var response := Answer(world(at), revision, cursor, limit);
    AnswerIsTaken(world, start, revision, limit, rows, cursor, items, identities, cursors, at - start, response);
    merged, seen := items, identities;
    if response.Refused? {
      return Fails(FailureOf(response.status)), merged, seen;
    }
    if response.Conflicted? || response.revision != revision {
      return Fails(RevisionConflict), merged, seen;
    }
    merged, seen := Merge(items, identities, response.items);
    if !response.hasMore {
      return Finishes, merged, seen;
    }
    if response.next.None? || response.next.value in cursors {
      return Fails(InvalidContinuation), merged, seen;
    }
    turn := Continues(response.next.value);
  }

  /** All pages at one revision, from request `start`: the collection of that revision, or the failure that
      the last request explains. `end` is the number of the next request. */
  method FetchAllPages(world: World, start: nat, revision: string, limit: nat) returns (result: Fetched, end: nat)
    requires limit >= 1 && RevisionFixesRows(world)
    ensures Fetches(world, start, end, revision, limit, result)
  {
    var items: seq<Row>, identities: set<string>, cursors: set<Cursor> := [], {}, {};
    var cursor: Option<Cursor> := None;
    end := start;
    ghost var rows := if HasStore(world(start)) then world(start).store.rows else [];
    while true
      invariant start <= end
      invariant Fetching(world, start, revision, limit, rows, cursor, items, identities, cursors, end - start)
      decreases |Left(rows, KeyOf(cursor))|
    {
      PagesAreLeft(world, start, revision, limit, rows, cursor, items, identities, cursors, end - start);
      var turn;
      turn, items, identities :=
        FetchPage(world, start, end, revision, limit, rows, cursor, items, identities, cursors);
      end := end + 1;
      match turn {
        case Fails(failure) => return Thrown(failure), end;
        case Finishes => return Collected(items, revision, end - start), end;
        case Continues(next) => cursors, cursor := cursors + {next}, Some(next);
      }
    }
  }

  /** A fetch that is still going has a page to read. */
  lemma PagesAreLeft(world: World, start: nat, revision: string, limit: nat, rows: seq<Row>, cursor: Option<Cursor>,
                     items: seq<Row>, identities: set<string>, cursors: set<Cursor>, pages: nat)
    requires Fetching(world, start, revision, limit, rows, cursor, items, identities, cursors, pages)
    requires rows == if HasStore(world(start)) then world(start).store.rows else []
    ensures pages < PagesAt(world, start, limit)
  {
  }

  /** What is met decides what a fetch comes to, and after how many requests. */
  lemma FetchIsDetermined(
    world: World, start: nat, revision: string, limit: nat, a: Fetched, aEnd: nat, b: Fetched, bEnd: nat)
    requires limit >= 1
    requires Fetches(world, start, aEnd, revision, limit, a) && Fetches(world, start, bEnd, revision, limit, b)
    ensures a == b && aEnd == bEnd
  {
    FailureIsDisturbed(world, start, aEnd, revision, limit, a);
    FailureIsDisturbed(world, start, bEnd, revision, limit, b);
  }

  lemma FailureIsDisturbed(world: World, start: nat, end: nat, revision: string, limit: nat, result: Fetched)
    requires limit >= 1 && Fetches(world, start, end, revision, limit, result)
    ensures result.Thrown? ==> !Undisturbed(world(end - 1), revision)
  {
  }

  /** A server that serves the revision until all pages are read is collected from. */
  lemma UndisturbedIsCollected(world: World, start: nat, end: nat, revision: string, limit: nat, result: Fetched)
    requires limit >= 1 && Fetches(world, start, end, revision, limit, result)
    requires UndisturbedFrom(world, start, start + PagesAt(world, start, limit), revision)
    ensures result.Collected? && end == start + PagesAt(world, start, limit)
  {
    FailureIsDisturbed(world, start, end, revision, limit, result);
  }

  // ---------------------------------------------------------------- starting over

  /** A fetch, with the revision of the overview it was started over from if it was. */
  datatype Restarted = Restarted(fetched: Fetched, overview: Option<string>)

  /** A first fetch stands unless it conflicts. Then the overview is read: if it cannot be, that is the failure,
      and otherwise everything is fetched once more at the overview's revision, whatever comes of it. */
  ghost predicate StartsOver(
    world: World, start: nat, end: nat, revision: string, limit: nat, first: Fetched, t: nat, result: Restarted)
    requires limit >= 1
  {
    && Fetches(world, start, t, revision, limit, first)
    && if first != Thrown(RevisionConflict) then result == Restarted(first, None) && end == t
       else if world(t).Failing? then
         end == t + 1 && result == Restarted(Thrown(FailureOf(world(t).status)), None)
       else
         && result.overview == Some(world(t).store.revision)
         && Fetches(world, t + 1, end, world(t).store.revision, limit, result.fetched)
  }

  /** The collection pinned to a revision or, when that conflicts, to the revision of the overview as it then
      is: once. */
  method FetchWithRestart(world: World, start: nat, revision: string, limit: nat)
    returns (result: Restarted, end: nat, ghost first: Fetched, ghost t: nat)
    requires limit >= 1 && RevisionFixesRows(world)
    ensures StartsOver(world, start, end, revision, limit, first, t, result)
  {
    var fetched;
    fetched, end := FetchAllPages(world, start, revision, limit);
    first, t := fetched, end;
    if fetched.Collected? || !fetched.failure.RevisionConflict? {
      return Restarted(fetched, None), end, first, t;
    }
    var moment := world(end);
    end := end + 1;
    if !HasStore(moment) {
      return Restarted(Thrown(FailureOf(moment.status)), None), end, first, t;
    }
    var current := moment.store.revision;
    var second;
    second, end := FetchAllPages(world, end, current, limit);
    result := Restarted(second, Some(current));
  }

  /** Whatever is returned is the whole collection of one revision, the pinned one or the overview's, never rows
      of two; and whether it was started over can be told from whether the first fetch conflicted and the
      overview could be read. */
  lemma NeverAMixture(
    world: World, start: nat, end: nat, revision: string, limit: nat, first: Fetched, t: nat, result: Restarted)
    requires limit >= 1 && StartsOver(world, start, end, revision, limit, first, t, result)
    ensures result.fetched.Collected? ==>
      && result.fetched.revision == (if result.overview.Some? then result.overview.value else revision)
      && exists from: nat :: start <= from < end
           && IsCollected(world, from, end, result.fetched.revision, limit, result.fetched)
    ensures result.overview.Some? <==> first == Thrown(RevisionConflict) && HasStore(world(t))
    ensures result.overview.None? && result.fetched == Thrown(RevisionConflict) ==>
      first == Thrown(RevisionConflict) && world(end - 1) == Failing(409)
  {
  }

  /** When the store is replaced once, whenever that is, and otherwise served without disturbance, the client
      gets a whole collection: that of the old revision exactly when all its pages were read before. */
  lemma OneReplacementIsSurvived(
    world: World, start: nat, end: nat, revision: string, limit: nat, first: Fetched, t: nat, result: Restarted,
    replaced: nat, next: string)
    requires limit >= 1 && StartsOver(world, start, end, revision, limit, first, t, result)
    requires start <= replaced && next != revision && UndisturbedFrom(world, start, replaced, revision)
    requires forall u: nat | u >= replaced :: Undisturbed(world(u), next)
    ensures
      var inTime := start < replaced && start + PagesAt(world, start, limit) <= replaced;
      && result.fetched.Collected?
      && result.overview == (if inTime then None else Some(next))
      && IsCollected(
           world, if inTime then start else t + 1, end, if inTime then revision else next, limit, result.fetched)
      && (!inTime ==> t == replaced + 1)
  {
    if start < replaced && start + PagesAt(world, start, limit) <= replaced {
      UndisturbedIsCollected(world, start, t, revision, limit, first);
    } else {
      ReplacementConflicts(world, start, t, revision, limit, first, replaced, next);
      UndisturbedIsCollected(world, t + 1, end, next, limit, result.fetched);
    }
  }

  /** A store replaced before all its pages are read gives a conflict at the first request after. */
  lemma ReplacementConflicts(
    world: World, start: nat, end: nat, revision: string, limit: nat, result: Fetched, replaced: nat, next: string)
    requires limit >= 1 && Fetches(world, start, end, revision, limit, result)
    requires start <= replaced && next != revision && UndisturbedFrom(world, start, replaced, revision)
    requires start < replaced ==> replaced < start + PagesAt(world, start, limit)
    requires Undisturbed(world(replaced), next)
    ensures result == Thrown(RevisionConflict) && end == replaced + 1
  {
    FailureIsDisturbed(world, start, end, revision, limit, result);
    assert !Undisturbed(world(replaced), revision);
  }

  /** What is collected of a revision without a tie at a page's end and with distinct identities is all its
      rows by key, each once, in as few pages as hold them. */
  lemma CollectedIsEveryRow(world: World, start: nat, end: nat, revision: string, limit: nat, result: Fetched)
    requires IsCollected(world, start, end, revision, limit, result)
    ensures
      var rows := world(start).store.rows;
      && (result.items == Sort(rows) <==>
          NoTieAtACut(Sort(rows), limit) && DistinctIdentities(Sort(rows)))
      && (NoTieAtACut(Sort(rows), limit) ==>
          if rows == [] then result.pageCount == 1
          else (result.pageCount - 1) * limit < |rows| <= result.pageCount * limit)
  {
    var rows := world(start).store.rows;
    SortSorts(rows);
    SortKeepsRows(rows);
    FreshWalkIsAll(Sort(rows), limit);
    if NoTieAtACut(Sort(rows), limit) { PagesNeeded(Sort(rows), limit); }
  }

  /** A walk without repeated identities gives all rows exactly when no tie falls on the end of a page and
      no two rows share an identity. */
  lemma FreshWalkIsAll(s: seq<Row>, limit: nat)
    requires Sorted(s) && limit >= 1
    ensures Fresh(Walk(s, limit), {}) == s <==> NoTieAtACut(s, limit) && DistinctIdentities(s)
  {
    WalkIsCompleteIffNoTie(s, limit);
    WalkIsNoLonger(s, limit);
    FreshIsAllIffDistinct(Walk(s, limit), {});
    if |Walk(s, limit)| == |s| { WalkFitsOnlyWhole(s, limit); }
  }

  /** As many rows as there are can only be those rows. */
  lemma {:induction false} WalkFitsOnlyWhole(s: seq<Row>, limit: nat)
    requires Sorted(s) && limit >= 1 && |Walk(s, limit)| == |s|
    ensures Walk(s, limit) == s
    decreases |s|
  {
    if |s| > limit {
      RestAfterPage(s, limit);
      var rest := After(s, s[limit - 1].key);
      WalkIsNoLonger(rest, limit);
      WalkFitsOnlyWhole(rest, limit);
    }
  }
}
