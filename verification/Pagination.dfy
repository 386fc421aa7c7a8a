// The page walk: `rel="next"` links are followed until a page has none.
module Pagination {
  import opened Prelude

  /** What one URL answers: `items` is `None` for an error status, an unreadable body or a page of the wrong shape. */
  datatype Page<T> = Page(items: Option<seq<T>>, next: Option<string>)

  datatype WalkError = BadPage(url: string) | UntrustedLink(url: string) | CyclicLink(url: string)

  /** `path` leads from `start` over good pages and trusted links to a page without a next link. */
  ghost predicate Chain<T(!new)>(server: string -> Page<T>, trusted: string -> bool, start: string, path: seq<string>) {
    && path != [] && path[0] == start
    && (forall i :: 0 <= i < |path| ==> server(path[i]).items.Some?)
    && Linked(server, trusted, path)
    && server(path[|path| - 1]).next.None?
  }

  ghost predicate Linked<T(!new)>(server: string -> Page<T>, trusted: string -> bool, path: seq<string>) {
    forall i, j :: 0 <= i < j < |path| && j == i + 1 ==> server(path[i]).next == Some(path[j]) && trusted(path[j])
  }

  function ItemsOf<T>(server: string -> Page<T>, path: seq<string>): seq<T> {
    if path == [] then []
    else ItemsOf(server, path[..|path| - 1]) + OrElse(server(path[|path| - 1]).items, Some([])).value
  }

  /** A chain has to run along whatever the walk visited. */
  lemma {:induction false} ChainFollows<T(!new)>(server: string -> Page<T>, trusted: string -> bool,
                                                 visited: seq<string>, path: seq<string>, k: nat)
    requires visited != [] && Chain(server, trusted, visited[0], path) && Linked(server, trusted, visited)
    requires k < |visited|
    ensures k < |path| && path[k] == visited[k]
  {
    if k > 0 {
      ChainFollows(server, trusted, visited, path, k - 1);
      assert server(visited[k - 1]).next == Some(visited[k]);
      assert k - 1 < |path| - 1;
    }
  }

  /** What is known of the URLs requested before the next one. */
  ghost predicate Walked<T(!new)>(server: string -> Page<T>, trusted: string -> bool, requested: seq<string>) {
    && Distinct(requested)
    && Linked(server, trusted, requested)
    && (forall i :: 0 <= i < |requested| ==> server(requested[i]).items.Some?)
  }

  lemma ChainGood<T(!new)>(server: string -> Page<T>, trusted: string -> bool, visited: seq<string>, path: seq<string>)
    requires visited != [] && Chain(server, trusted, visited[0], path) && Linked(server, trusted, visited)
    ensures var last := server(visited[|visited| - 1]);
            last.items.Some? && (last.next.Some? ==> trusted(last.next.value))
  {
    var k := |visited| - 1;
    ChainFollows(server, trusted, visited, path, k);
    assert k + 1 < |path| ==> server(path[k]).next == Some(path[k + 1]) && trusted(path[k + 1]);
  }

  lemma BadEnds<T(!new)>(server: string -> Page<T>, trusted: string -> bool, requested: seq<string>)
    requires requested != [] && Linked(server, trusted, requested)
    requires var last := server(requested[|requested| - 1]);
             last.items.None? || (last.next.Some? && !trusted(last.next.value))
    ensures forall path :: !Chain(server, trusted, requested[0], path)
  {
    forall path | Chain(server, trusted, requested[0], path) ensures false {
      ChainGood(server, trusted, requested, path);
    }
  }

  ghost predicate Closed<T(!new)>(server: string -> Page<T>, visited: seq<string>) {
    forall i :: 0 <= i < |visited| ==> server(visited[i]).next.Some? && server(visited[i]).next.value in visited
  }

  lemma {:induction false} ClosedKeeps<T(!new)>(server: string -> Page<T>, trusted: string -> bool,
                                                visited: seq<string>, path: seq<string>, k: nat)
    requires visited != [] && Chain(server, trusted, visited[0], path) && k < |path| && Closed(server, visited)
    ensures path[k] in visited
  {
    if k > 0 {
      ClosedKeeps(server, trusted, visited, path, k - 1);
      var i :| 0 <= i < |visited| && visited[i] == path[k - 1];
      assert server(path[k - 1]).next == Some(path[k]);
    }
  }

  /** No chain starts inside visited URLs whose links all stay among them. */
  lemma ClosedHasNoEnd<T(!new)>(server: string -> Page<T>, trusted: string -> bool, visited: seq<string>,
                                path: seq<string>)
    requires visited != [] && Closed(server, visited)
    ensures !Chain(server, trusted, visited[0], path)
  {
    if Chain(server, trusted, visited[0], path) {
      ClosedKeeps(server, trusted, visited, path, |path| - 1);
    }
  }

  lemma LinksStay<T(!new)>(server: string -> Page<T>, trusted: string -> bool, requested: seq<string>)
    requires requested != [] && Linked(server, trusted, requested)
    requires server(requested[|requested| - 1]).next.Some? && server(requested[|requested| - 1]).next.value in requested
    ensures Closed(server, requested)
  {
    forall i | 0 <= i < |requested|
      ensures server(requested[i]).next.Some? && server(requested[i]).next.value in requested
    {
      assert i + 1 < |requested| ==> server(requested[i]).next == Some(requested[i + 1]);
    }
  }

  lemma CycleHasNoEnd<T(!new)>(server: string -> Page<T>, trusted: string -> bool, requested: seq<string>)
    requires requested != [] && Linked(server, trusted, requested)
    requires server(requested[|requested| - 1]).next.Some? && server(requested[|requested| - 1]).next.value in requested
    ensures forall path :: !Chain(server, trusted, requested[0], path)
  {
    hide Linked, Chain, Closed;
    LinksStay(server, trusted, requested);
    forall path ensures !Chain(server, trusted, requested[0], path) {
      ClosedHasNoEnd(server, trusted, requested, path);
    }
  }

  lemma Extend<T(!new)>(server: string -> Page<T>, trusted: string -> bool, requested: seq<string>, url: string)
    requires Walked(server, trusted, requested) && url !in requested
    requires requested != [] ==> server(requested[|requested| - 1]).next == Some(url) && trusted(url)
    ensures Distinct(requested + [url]) && Linked(server, trusted, requested + [url])
    ensures server(url).items.Some? ==> Walked(server, trusted, requested + [url])
  {
    var path := requested + [url];
    forall i, j | 0 <= i < j < |path| ensures path[i] != path[j] {
      assert path[i] == requested[i];
      assert j < |requested| ==> path[j] == requested[j];
    }
    forall i, j | 0 <= i < j < |path| && j == i + 1 ensures server(path[i]).next == Some(path[j]) && trusted(path[j]) {
      assert path[i] == requested[i];
      assert j < |requested| ==> path[j] == requested[j];
    }
  }

  /** What each error says about the last URL requested. */
  ghost predicate Explains<T(!new)>(server: string -> Page<T>, trusted: string -> bool, requested: seq<string>,
                                     error: WalkError)
  {
    requested != [] &&
    var last := requested[|requested| - 1];
    && (error.BadPage? ==> error.url == last && server(last).items.None?)
    && (error.UntrustedLink? ==> server(last).next == Some(error.url) && !trusted(error.url))
    && (error.CyclicLink? ==> server(last).next == Some(error.url) && error.url in requested)
  }

  /**
   * `walkPages`, with each URL answering the same page and link throughout; `universe` bounds the URLs links can reach.
   * It ends normally exactly when a chain exists, with the chain's items in order, and requests no URL twice.
   */
  method WalkPages<T(!new)>(server: string -> Page<T>, trusted: string -> bool, start: string,
                            ghost universe: set<string>)
    returns (result: Result<seq<T>, WalkError>, requested: seq<string>)
    requires start in universe
    requires forall u | u in universe :: server(u).next.Some? ==> server(u).next.value in universe
    ensures Distinct(requested) && requested != [] && requested[0] == start && Linked(server, trusted, requested)
    ensures result.Ok? <==> exists path :: Chain(server, trusted, start, path)
    ensures result.Ok? ==> Chain(server, trusted, start, requested) && result.value == ItemsOf(server, requested)
    ensures result.Err? ==> Explains(server, trusted, requested, result.error)
  {
    hide Chain, Linked, Distinct, ItemsOf;
    var url := Some(start);
    var items: seq<T> := [];
    var seen: set<string> := {};
    requested := [];
    NothingWalked(server, trusted);
    while url.Some?
      invariant Walked(server, trusted, requested)
      invariant items == ItemsOf(server, requested)
      invariant (forall u :: u in seen <==> u in requested) && seen <= universe
      invariant requested == [] ==> url == Some(start)
      invariant requested != [] ==> requested[0] == start
      invariant requested != [] ==> server(requested[|requested| - 1]).next == url
      invariant requested != [] && url.Some? ==> trusted(url.value)
      invariant url.Some? ==> url.value in universe
      decreases universe - seen
    {
      var current := url.value;
      if current in seen {
        CycleHasNoEnd(server, trusted, requested);
        return Err(CyclicLink(current)), requested;
      }
      seen := seen + {current};
      Extend(server, trusted, requested, current);
      ItemsStep(server, requested, current);
      requested := requested + [current];
      var page := server(current);
      if page.items.None? {
        BadEnds(server, trusted, requested);
        return Err(BadPage(current)), requested;
      }
      items := items + page.items.value;
      if page.next.Some? && !trusted(page.next.value) {
        BadEnds(server, trusted, requested);
        return Err(UntrustedLink(page.next.value)), requested;
      }
      url := page.next;
    }
    IsChain(server, trusted, requested);
    result := Ok(items);
  }

  lemma NothingWalked<T(!new)>(server: string -> Page<T>, trusted: string -> bool)
    ensures Walked(server, trusted, []) && ItemsOf(server, []) == []
  {
  }

  lemma ItemsStep<T(!new)>(server: string -> Page<T>, requested: seq<string>, url: string)
    ensures ItemsOf(server, requested + [url])
         == ItemsOf(server, requested) + OrElse(server(url).items, Some([])).value
  {
    assert (requested + [url])[..|requested|] == requested;
  }

  lemma IsChain<T(!new)>(server: string -> Page<T>, trusted: string -> bool, requested: seq<string>)
    requires Walked(server, trusted, requested) && requested != []
    requires server(requested[|requested| - 1]).next.None?
    ensures Chain(server, trusted, requested[0], requested)
  {
  }

  /** A chain never repeats a URL: fixed links that repeat never end. */
  lemma ChainAcyclic<T(!new)>(server: string -> Page<T>, trusted: string -> bool, start: string, path: seq<string>)
    requires Chain(server, trusted, start, path)
    ensures Distinct(path)
  {
    if i, j :| 0 <= i < j < |path| && path[i] == path[j] {
      PrefixLinked(server, trusted, path, j);
      var loop := path[..j];
      assert loop[i] == path[j] && loop[0] == start;
      CycleHasNoEnd(server, trusted, loop);
    }
  }

  lemma PrefixLinked<T(!new)>(server: string -> Page<T>, trusted: string -> bool, path: seq<string>, j: int)
    requires Linked(server, trusted, path) && 0 < j < |path|
    ensures Linked(server, trusted, path[..j]) && server(path[..j][j - 1]).next == Some(path[j])
  {
    var loop := path[..j];
    forall a, b | 0 <= a < b < |loop| && b == a + 1 ensures server(loop[a]).next == Some(loop[b]) && trusted(loop[b]) {
      assert loop[a] == path[a] && loop[b] == path[b];
    }
    assert loop[j - 1] == path[j - 1];
  }
}
