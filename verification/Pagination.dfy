/** The paged draft list: offset pages of a server list ordered by last change, merged by id on
    the client and kept complete while this client creates, saves and deletes drafts.

    Page requests are answered at once; the server list is changed by this client only.
 */
module Pagination {
  import opened Wrappers

  const PAGE := 50

  type Ids = seq<string>

  predicate Distinct(xs: Ids) {
    forall i, j :: 0 <= i < j < |xs| ==> xs[i] != xs[j]
  }

  ghost function Elements(xs: Ids): set<string> {
    set x | x in xs
  }

  /** `xs.filter((x) => x !== id)` */
  function Without(xs: Ids, id: string): Ids {
    if xs == [] then []
    else (if xs[0] == id then [] else [xs[0]]) + Without(xs[1..], id)
  }

  /** What the server answers: a page, the total, and where the next page starts. */
  datatype Page = Page(items: Ids, total: nat, hasMore: bool, nextOffset: nat)

  /** `draft_summary_page` and its JSON answer; `next_offset` is null on the last page, which
      the client's `Number(null)` reads as 0. */
  function ServePage(server: Ids, offset: nat): Page {
    var from := if offset < |server| then offset else |server|;
    var to := if from + PAGE < |server| then from + PAGE else |server|;
    var more := offset + (to - from) < |server|;
    Page(server[from..to], |server|, more, if more then offset + (to - from) else 0)
  }

  // ---------------------------------------------------------------- the client

  lemma ElementsCons(x: string, xs: Ids)
    ensures Elements([x] + xs) == {x} + Elements(xs)
  {
    assert forall y :: y in [x] + xs <==> y == x || y in xs;
  }

  lemma ElementsPrefix(xs: Ids, m: nat, n: nat)
    requires m <= n <= |xs|
    ensures Elements(xs[..m]) <= Elements(xs[..n]) <= Elements(xs)
  {
    assert xs[..m] == xs[..n][..m];
  }

  lemma ElementsOfNone()
    ensures Elements([]) == {}
  {
  }

  lemma ElementsSnoc(xs: Ids, x: string)
    ensures Elements(xs + [x]) == Elements(xs) + {x}
    ensures x in xs <==> x in Elements(xs)
    ensures Distinct(xs) && x !in xs ==> Distinct(xs + [x])
  {
    assert forall y :: y in xs + [x] <==> y in xs || y == x;
  }

  /** `new Map(...)`: a later item keeps the place of an earlier one with its id. */
  function Merge(drafts: Ids, items: Ids): Ids
    decreases |items|
  {
    if items == [] then drafts
    else Merge(Joined(drafts, items[0]), items[1..])
  }

  function Joined(drafts: Ids, x: string): Ids {
    if x in drafts then drafts else drafts + [x]
  }

  lemma JoinedIs(drafts: Ids, x: string)
    requires Distinct(drafts)
    ensures Distinct(Joined(drafts, x)) && Elements(Joined(drafts, x)) == Elements(drafts) + {x}
  {
    ElementsSnoc(drafts, x);
  }

  lemma {:induction false} MergeIsUnion(drafts: Ids, items: Ids)
    requires Distinct(drafts)
    ensures Elements(Merge(drafts, items)) == Elements(drafts) + Elements(items)
    ensures Distinct(Merge(drafts, items))
    decreases |items|
  {
    hide Distinct, Elements, Joined;
    if items == [] {
      ElementsOfNone();
    } else {
      JoinedIs(drafts, items[0]);
      MergeIsUnion(Joined(drafts, items[0]), items[1..]);
      ElementsCons(items[0], items[1..]);
      assert items == [items[0]] + items[1..];
    }
  }

  /** The items not listed yet, in their order. */
  function NotIn(items: Ids, drafts: Ids): Ids {
    if items == [] then []
    else (if items[0] in drafts then [] else [items[0]]) + NotIn(items[1..], drafts)
  }

  /** A listed row keeps its place; the new rows of a page follow in the page's order. */
  lemma {:induction false} MergeIs(drafts: Ids, items: Ids)
    requires Distinct(items)
    ensures Merge(drafts, items) == drafts + NotIn(items, drafts)
    decreases |items|
  {
    hide Distinct, Joined;
    if items != [] {
      var x, rest := items[0], items[1..];
      DistinctRest(items);
      MergeIs(Joined(drafts, x), rest);
      NotInJoined(rest, drafts, x);
      JoinedThen(drafts, x, NotIn(rest, drafts));
    }
  }

  lemma JoinedThen(drafts: Ids, x: string, more: Ids)
    ensures Joined(drafts, x) + more == drafts + ((if x in drafts then [] else [x]) + more)
  {
  }

  lemma DistinctRest(items: Ids)
    requires Distinct(items) && items != []
    ensures Distinct(items[1..]) && items[0] !in items[1..]
  {
  }

  lemma {:induction false} NotInJoined(items: Ids, drafts: Ids, x: string)
    requires x !in items
    ensures NotIn(items, Joined(drafts, x)) == NotIn(items, drafts)
    decreases |items|
  {
    if items != [] {
      NotInJoined(items[1..], drafts, x);
    }
  }

  /** Taking a row out leaves the others in their order. */
  lemma {:induction false} WithoutOne(a: Ids, id: string, b: Ids)
    requires id !in a && id !in b
    ensures Without(a + [id] + b, id) == a + b && Without(a + b, id) == a + b
    decreases |a|
  {
    if a == [] {
      assert a + [id] + b == [id] + b && a + b == b;
      assert ([id] + b)[1..] == b;
      WithoutNone(b, id);
    } else {
      assert (a + [id] + b)[1..] == a[1..] + [id] + b && (a + b)[1..] == a[1..] + b;
      WithoutOne(a[1..], id, b);
    }
  }

  lemma {:induction false} WithoutNone(xs: Ids, id: string)
    requires id !in xs
    ensures Without(xs, id) == xs
    decreases |xs|
  {
    if xs != [] {
      WithoutNone(xs[1..], id);
    }
  }

  lemma {:induction false} WithoutIs(xs: Ids, id: string)
    requires Distinct(xs)
    ensures Distinct(Without(xs, id)) && Elements(Without(xs, id)) == Elements(xs) - {id}
    ensures |Without(xs, id)| == |xs| - if id in xs then 1 else 0
    decreases |xs|
  {
    if xs != [] {
      var rest := xs[1..];
      WithoutIs(rest, id);
      assert xs == [xs[0]] + rest;
      assert Elements(xs) == {xs[0]} + Elements(rest);
      assert xs[0] !in Elements(rest);
      assert id in rest <==> id in Elements(rest);
      if xs[0] != id {
        assert Elements([xs[0]] + Without(rest, id)) == {xs[0]} + Elements(Without(rest, id));
        assert xs[0] !in Elements(Without(rest, id));
      }
    }
  }

  lemma {:induction false} WithoutConcat(a: Ids, b: Ids, id: string)
    ensures Without(a + b, id) == Without(a, id) + Without(b, id)
    decreases |a|
  {
    if a == [] {
      assert a + b == b;
    } else {
      assert (a + b)[1..] == a[1..] + b;
      WithoutConcat(a[1..], b, id);
    }
  }

  /** The first n rows of a list, less one row, are the first rows of the list less that row. */
  lemma WithoutPrefix(xs: Ids, id: string, n: nat)
    requires Distinct(xs) && n <= |xs|
    ensures var k := if id in xs[..n] then n - 1 else n;
            k <= |Without(xs, id)| && Elements(Without(xs, id)[..k]) == Elements(xs[..n]) - {id}
  {
    var k := if id in xs[..n] then n - 1 else n;
    assert xs == xs[..n] + xs[n..];
    WithoutConcat(xs[..n], xs[n..], id);
    WithoutIs(xs[..n], id);
    assert Without(xs, id)[..k] == Without(xs[..n], id);
  }

  /** A served page is the next stretch of the server list; without a next page it is the rest. */
  lemma PageOf(server: Ids, offset: nat)
    requires Distinct(server) && offset <= |server|
    ensures var page, front := ServePage(server, offset), Elements(server[..offset]);
            && |page.items| == (if |server| - offset < 50 then |server| - offset else 50)
            && page.items == server[offset..offset + |page.items|]
            && (page.hasMore <==> offset + |page.items| < |server|)
            && page.total == |server| && Distinct(page.items) && Elements(page.items) <= Elements(server)
            && (page.hasMore ==>
                  page.nextOffset == offset + PAGE <= |server|
                  && Elements(server[..page.nextOffset]) == front + Elements(page.items))
            && (!page.hasMore ==> Elements(server) == front + Elements(page.items))
  {
    var page := ServePage(server, offset);
    var to := offset + |page.items|;
    assert page.items == server[offset..to];
    assert Distinct(page.items) by { DistinctSlice(server, offset, to); }
    hide Distinct;
    assert server[..to] == server[..offset] + page.items;
    assert !page.hasMore ==> server == server[..to];
    assert forall x :: x in server[..offset] + page.items <==> x in server[..offset] || x in page.items;
  }

  lemma DistinctSlice(xs: Ids, i: nat, j: nat)
    requires Distinct(xs) && i <= j <= |xs|
    ensures Distinct(xs[i..j])
  {
  }

  class DraftList {
    var drafts: Ids
    var total: nat
    var nextOffset: nat
    var hasMore: bool

    /** A page request has ended, in whatever way, and the latest one failed. */
    var loaded: bool
    var failed: bool

    /** The server's undeleted drafts, latest change first; whether a page of them has come; and
        those that were there at the start and have been neither saved nor deleted here. */
    ghost var server: Ids
    ghost var listed: bool
    ghost var untouched: set<string>

    /** Only server drafts are listed, each once; and once a first page has come, everything in
        front of the next page, or everything when there is none, is listed.  The screen knows
        that a page has come from a request that has ended and not failed. */
    ghost predicate Valid()
      reads this
    {
      && Distinct(server) && Distinct(drafts) && Elements(drafts) <= Elements(server)
      && (hasMore ==> listed) && (failed ==> loaded) && (loaded && !failed ==> listed)
      && untouched <= Elements(server)
      && (!listed ==> Elements(drafts) == Elements(server) - untouched)
      && (listed ==>
           && total == |server|
           && (hasMore ==> nextOffset <= |server| && Elements(server[..nextOffset]) <= Elements(drafts))
           && (!hasMore ==> Elements(server) <= Elements(drafts)))
    }

    constructor (ghost server: Ids)
      requires Distinct(server)
      ensures Valid() && !loaded && !listed && this.server == server && drafts == [] && !hasMore
      ensures untouched == Elements(server)
    {
      this.server, listed, untouched := server, false, Elements(server);
      drafts, total, nextOffset, hasMore, loaded, failed := [], 0, 0, false, false, false;
    }

    /** `loadDrafts`; `answer` is what the server answers for the offset asked, or none when the
        request fails, which leaves the list and still counts as loaded. */
    method LoadDrafts(append: bool, answer: Option<Page>)
      requires Valid()
      requires answer.Some? ==> answer.value == ServePage(server, if append then nextOffset else 0)
      modifies this`drafts, this`total, this`nextOffset, this`hasMore, this`loaded, this`failed, this`listed
      ensures Valid()
      ensures var asked := !append || old(hasMore);
              && (!asked ==> loaded == old(loaded) && failed == old(failed))
              && (asked ==> loaded && (failed <==> answer.None?))
              && listed == (old(listed) || (asked && answer.Some?))
      ensures (append && !old(hasMore)) || answer.None? ==>
                drafts == old(drafts) && total == old(total) && nextOffset == old(nextOffset) && hasMore == old(hasMore)
      ensures append && old(hasMore) && answer.Some? ==>
                && drafts == old(drafts) + NotIn(answer.value.items, old(drafts))
                && Elements(drafts) == Elements(old(drafts)) + Elements(answer.value.items)
                && (hasMore ==> nextOffset == old(nextOffset) + PAGE)
      ensures !append && answer.Some? ==> drafts == answer.value.items
      ensures (!append || old(hasMore)) && answer.Some? ==>
                total == answer.value.total && hasMore == answer.value.hasMore && nextOffset == answer.value.nextOffset
    {
      if append && !hasMore {
        return;
      }
      failed := false;
      if answer.None? {
        loaded := true;
        failed := true;
        return;
      }
      var page := answer.value;
      ghost var from := if append then nextOffset else 0;
      PageOf(server, from);
      if append {
        MergeIsUnion(drafts, page.items);
        MergeIs(drafts, page.items);
        drafts := Merge(drafts, page.items);
      } else {
        drafts := page.items;
      }
      total := page.total;
      hasMore := page.hasMore;
      nextOffset := page.nextOffset;
      loaded := true;
      listed := true;
    }

    /** A created draft comes first on the server and is put first here; the offset stays, so
        the next page repeats one row rather than skipping one. */
    method CreateDraft(id: string)
      requires Valid() && id !in server
      modifies this
      ensures Valid() && server == [id] + old(server) && drafts == [id] + old(drafts) && total == old(total) + 1
      ensures nextOffset == old(nextOffset) && hasMore == old(hasMore) && listed == old(listed)
      ensures untouched == old(untouched)
      ensures loaded == old(loaded) && failed == old(failed)
    {
      assert id !in Elements(server) && id !in Elements(drafts);
      ghost var server' := [id] + server;
      ElementsCons(id, server);
      ElementsCons(id, drafts);
      if hasMore && nextOffset > 0 {
        assert server'[..nextOffset] == [id] + server[..nextOffset - 1];
        ElementsCons(id, server[..nextOffset - 1]);
        ElementsPrefix(server, nextOffset - 1, nextOffset);
      }
      server := server';
      drafts := [id] + drafts;
      total := total + 1;
    }

    /** A saved draft moves to the front of the server list; `updateDraftSummary` keeps its place
        here, or puts it first when it was not listed. */
    method SaveDraft(id: string)
      requires Valid() && id in server
      modifies this
      ensures Valid() && server == [id] + Without(old(server), id)
      ensures Elements(drafts) == Elements(old(drafts)) + {id} && total == old(total)
      ensures drafts == if id in old(drafts) then old(drafts) else [id] + old(drafts)
      ensures nextOffset == old(nextOffset) && hasMore == old(hasMore) && listed == old(listed)
      ensures untouched == old(untouched) - {id}
      ensures loaded == old(loaded) && failed == old(failed)
    {
      hide Without;
      WithoutIs(server, id);
      ghost var server' := [id] + Without(server, id);
      if hasMore && nextOffset > 0 {
        ghost var n := nextOffset;
        assert server'[..n] == [id] + Without(server, id)[..n - 1];
        WithoutPrefix(server, id, n);
        ghost var k := if id in server[..n] then n - 1 else n;
        ElementsCons(id, Without(server, id)[..n - 1]);
        ElementsPrefix(Without(server, id), n - 1, k);
      }
      ElementsCons(id, Without(server, id));
      assert id in Elements(server) && id !in Elements(Without(server, id));
      server := server';
      untouched := untouched - {id};
      if id !in drafts {
        ElementsCons(id, drafts);
        drafts := [id] + drafts;
      }
    }

    /** `deleteDraft`: the row leaves both lists, and the offset moves back when a listed row in
        front of a further page went. */
    method DeleteDraft(id: string)
      requires Valid() && id in server
      modifies this
      ensures Valid() && server == Without(old(server), id)
      ensures id !in drafts && Elements(drafts) == Elements(old(drafts)) - {id}
      ensures drafts == Without(old(drafts), id)
      ensures total == if old(total) > 0 then old(total) - 1 else 0
      ensures nextOffset == if id in old(drafts) && hasMore && old(nextOffset) > 0 then old(nextOffset) - 1 else old(nextOffset)
      ensures hasMore == old(hasMore) && listed == old(listed)
      ensures untouched == old(untouched) - {id}
      ensures loaded == old(loaded) && failed == old(failed)
    {
      var wasLoaded := id in drafts;
      WithoutIs(drafts, id);
      WithoutIs(server, id);
      ghost var server' := Without(server, id);
      if hasMore {
        ghost var n := nextOffset;
        WithoutPrefix(server, id, n);
        assert id in server[..n] ==> id in Elements(server[..n]);
        ghost var k := if id in server[..n] then n - 1 else n;
        if n > 0 {
          ElementsPrefix(server', n - 1, k);
        }
      }
      server := server';
      untouched := untouched - {id};
      drafts := Without(drafts, id);
      total := if total > 0 then total - 1 else 0;
      if wasLoaded && hasMore {
        nextOffset := if nextOffset > 0 then nextOffset - 1 else 0;
      }
    }
  }

  /** Pagination never skips: in whatever way pages were loaded and drafts created, saved and
      deleted, when a page has come and none is left, every server draft is listed, exactly once.
      So it is when a request has ended, the latest did not fail, and `hasMore` is false. */
  lemma CompleteWhenNoMore(list: DraftList)
    requires list.Valid() && !list.hasMore && (list.listed || (list.loaded && !list.failed))
    ensures multiset(list.drafts) == multiset(list.server) && |list.drafts| == list.total
  {
    SameElements(list.drafts, list.server);
    assert |multiset(list.drafts)| == |list.drafts| && |multiset(list.server)| == |list.server|;
  }

  lemma SameElements(xs: Ids, ys: Ids)
    requires Distinct(xs) && Distinct(ys)
    ensures multiset(xs) == multiset(ys) <==> Elements(xs) == Elements(ys)
  {
    DistinctCounts(xs);
    DistinctCounts(ys);
    if Elements(xs) == Elements(ys) {
      forall x ensures multiset(xs)[x] == multiset(ys)[x] {
        assert x in xs <==> x in Elements(xs);
        assert x in ys <==> x in Elements(ys);
      }
    }
    if multiset(xs) == multiset(ys) {
      forall x ensures x in Elements(xs) <==> x in Elements(ys) {
        assert x in multiset(xs) <==> x in multiset(ys);
      }
    }
  }

  /** With no further page the list is complete exactly when a page has come, or every draft the
      server held at the start has since been saved or deleted here. */
  lemma CompleteIff(list: DraftList)
    requires list.Valid() && !list.hasMore
    ensures multiset(list.drafts) == multiset(list.server) <==> list.listed || list.untouched == {}
  {
    hide Distinct;
    SameElements(list.drafts, list.server);
    assert Elements(list.server) - list.untouched == Elements(list.server) <==> list.untouched == {} by {
      assert list.untouched <= Elements(list.server);
      if x :| x in list.untouched {
        assert x !in Elements(list.server) - list.untouched;
      }
    }
  }

  /** Not so when the first page request fails: the list counts as loaded, with no further page,
      and shows none of the server's drafts. */
  method FailedFirstLoad(ghost server: Ids) returns (list: DraftList)
    requires Distinct(server)
    ensures list.Valid() && list.loaded && !list.hasMore && list.drafts == [] && list.server == server
    ensures list.untouched == Elements(server)
  {
    list := new DraftList(server);
    list.LoadDrafts(false, None);
  }

  lemma {:induction false} DistinctCounts(xs: Ids)
    requires Distinct(xs)
    ensures forall x :: multiset(xs)[x] == if x in xs then 1 else 0
    decreases |xs|
  {
    if xs != [] {
      DistinctCounts(xs[1..]);
      assert xs == [xs[0]] + xs[1..];
    }
  }
}
