/**
 * Keyset pagination of the product lists: a page is the first rows after its cursor, with one more
 * row probed to decide whether there is a next cursor.
 */
module Paging {
  import opened Base
  import opened Paths

  type Id = nat

  /** What lists are ordered by: a timestamp or sequence, then the id. */
  datatype Key = Key(major: int, id: Id)

  /** `Newest` is descending (characters, chats), `Oldest` ascending (messages of a chat). */
  datatype Order = Newest | Oldest

  datatype Cursor = Start | After(key: Key) | Malformed

  datatype Page = Page(items: seq<Key>, next: Option<Key>)

  predicate Before(o: Order, a: Key, b: Key) {
    match o
    case Newest => b.major < a.major || (a.major == b.major && b.id < a.id)
    case Oldest => a.major < b.major || (a.major == b.major && a.id < b.id)
  }

  predicate Sorted(o: Order, ks: seq<Key>) {
    forall i, j :: 0 <= i < j < |ks| ==> Before(o, ks[i], ks[j])
  }

  /** `page_limit`: 50 by default, clamped into 1..=200. */
  function PageLimit(limit: Option<int>): (n: nat)
    ensures 1 <= n <= 200
    ensures limit.Some? && 1 <= limit.value <= 200 ==> n == limit.value
  {
    var l := if limit.Some? then limit.value else 50;
    if l < 1 then 1 else if l > 200 then 200 else l
  }

  /** The rows a cursor still has in front of it. */
  function Ahead(o: Order, rows: set<Key>, cursor: Cursor): set<Key> {
    match cursor
    case Start => rows
    case After(key) => set k | k in rows && Before(o, key, k)
    case Malformed => {}
  }

  /** The rows of a set in list order. */
  ghost predicate IsListing(o: Order, ks: seq<Key>, rows: set<Key>) {
    Sorted(o, ks) && forall k :: k in ks <==> k in rows
  }

  lemma {:induction false} ListingIsUnique(o: Order, a: seq<Key>, b: seq<Key>, rows: set<Key>)
    requires IsListing(o, a, rows) && IsListing(o, b, rows)
    ensures a == b
    decreases |a|
  {
    if a == [] {
      HeadIn(b);
    } else {
      assert a[0] in a;
      assert a[0] in b && b[0] in b;
      assert b[0] in a;
      assert a[0] == b[0] by {
        var i :| 0 <= i < |b| && b[i] == a[0];
        var j :| 0 <= j < |a| && a[j] == b[0];
      }
      var rest := rows - {a[0]};
      TailListing(o, a, rows);
      TailListing(o, b, rows);
      ListingIsUnique(o, a[1..], b[1..], rest);
      assert a == [a[0]] + a[1..] && b == [b[0]] + b[1..];
    }
  }

  lemma HeadIn(ks: seq<Key>)
    ensures ks == [] || ks[0] in ks
  {
  }

  lemma TailListing(o: Order, a: seq<Key>, rows: set<Key>)
    requires IsListing(o, a, rows) && a != []
    ensures IsListing(o, a[1..], rows - {a[0]})
  {
    assert a == [a[0]] + a[1..];
    forall k | k in a[1..] ensures k != a[0] {
      var i :| 0 <= i < |a[1..]| && a[1..][i] == k;
      assert Before(o, a[0], a[i + 1]);
    }
  }

  /** The rows of a finite table in list order. */
  ghost function Listing(o: Order, rows: set<Key>): (all: seq<Key>)
    ensures IsListing(o, all, rows)
  {
    if rows == {} then []
    else
      FirstExists(o, rows);
      var k :| k in rows && forall x :: x in rows && x != k ==> Before(o, k, x);
      [k] + Listing(o, rows - {k})
  }

  lemma {:induction false} FirstExists(o: Order, rows: set<Key>)
    requires rows != {}
    ensures exists k :: k in rows && forall x :: x in rows && x != k ==> Before(o, k, x)
  {
    var y :| y in rows;
    if rows == {y} {
      assert forall x :: x in rows && x != y ==> Before(o, y, x);
    } else {
      FirstExists(o, rows - {y});
      var k :| k in rows - {y} && forall x :: x in rows - {y} && x != k ==> Before(o, k, x);
      var best := if Before(o, y, k) then y else k;
      forall x | x in rows && x != best ensures Before(o, best, x) {
        assert x == y || x == k || Before(o, k, x);
      }
      assert best in rows && forall x :: x in rows && x != best ==> Before(o, best, x);
    }
  }

  lemma {:induction false} ListingSize(o: Order, all: seq<Key>, rows: set<Key>)
    requires IsListing(o, all, rows)
    ensures |all| == |rows|
    decreases |all|
  {
    if all == [] {
      assert rows == {};
    } else {
      assert all[0] in all;
      TailListing(o, all, rows);
      ListingSize(o, all[1..], rows - {all[0]});
    }
  }

  /** The first row in list order. */
  method First(o: Order, rows: set<Key>) returns (k: Key)
    requires rows != {}
    ensures k in rows && forall x :: x in rows && x != k ==> Before(o, k, x)
  {
    k :| k in rows;
    var todo := rows - {k};
    while todo != {}
      invariant todo <= rows && k in rows
      invariant forall x :: x in rows && x !in todo && x != k ==> Before(o, k, x)
      decreases todo
    {
      var x :| x in todo;
      todo := todo - {x};
      if Before(o, x, k) {
        k := x;
      }
    }
  }

  /** `ORDER BY ... LIMIT n` over the rows that pass the WHERE clause. */
  method Query(o: Order, rows: set<Key>, n: nat) returns (ks: seq<Key>, ghost rest: set<Key>)
    ensures |ks| <= n && (|ks| < n ==> rest == {}) && Sorted(o, ks)
    ensures forall k :: k in rows <==> k in ks || k in rest
    ensures forall k, x :: k in ks && x in rest ==> Before(o, k, x)
    ensures rest <= rows
  {
    ks := [];
    var todo := rows;
    while todo != {} && |ks| < n
      invariant |ks| <= n && Sorted(o, ks) && todo <= rows
      invariant forall k :: k in rows <==> k in ks || k in todo
      invariant forall k, x :: k in ks && x in todo ==> Before(o, k, x)
      decreases todo
    {
      var k := First(o, todo);
      ks := ks + [k];
      todo := todo - {k};
    }
    rest := todo;
  }

  /** The page that shows the beginning of a listing. */
  function PageOf(all: seq<Key>, n: nat): Page
    requires n >= 1
  {
    if |all| <= n then Page(all, None) else Page(all[..n], Some(all[n - 1]))
  }

  /** The page behind every unfiltered list: `limit + 1` rows are read, and the extra one only decides the cursor. */
  method List(o: Order, rows: set<Key>, limit: Option<int>, cursor: Cursor) returns (page: Option<Page>)
    ensures page.None? <==> cursor.Malformed?
    ensures page.Some? ==> page.value == PageOf(Listing(o, Ahead(o, rows, cursor)), PageLimit(limit))
  {
    if cursor.Malformed? {
      return None;
    }
    var found := FirstPage(o, Ahead(o, rows, cursor), PageLimit(limit));
    page := Some(found);
  }

  /** The first `n` of the selected rows, and whether one follows. */
  method FirstPage(o: Order, rows: set<Key>, n: nat) returns (page: Page)
    requires n >= 1
    ensures page == PageOf(Listing(o, rows), n)
  {
    var items, rest := Query(o, rows, n + 1);
    QueryIsPrefix(o, Listing(o, rows), items, rest, rows, n + 1);
    hide Listing, IsListing;
    if |items| > n {
      page := Page(items[..n], Some(items[n - 1]));
    } else {
      page := Page(items, None);
    }
  }

  /** A limited query returns the beginning of the listing. */
  lemma QueryIsPrefix(o: Order, all: seq<Key>, ks: seq<Key>, rest: set<Key>, rows: set<Key>, n: nat)
    requires IsListing(o, all, rows) && Sorted(o, ks) && |ks| <= n && (|ks| < n ==> rest == {})
    requires forall k :: k in rows <==> k in ks || k in rest
    requires forall k, x :: k in ks && x in rest ==> Before(o, k, x)
    ensures ks == if |all| < n then all else all[..n]
  {
    PrefixOf(o, all, ks, rest, rows);
    if rest == {} {
      ListingIsUnique(o, all, ks, rows);
    }
  }

  lemma HeadsAgree(o: Order, all: seq<Key>, ks: seq<Key>, rest: set<Key>, rows: set<Key>)
    requires IsListing(o, all, rows) && Sorted(o, ks) && ks != []
    requires forall k :: k in rows <==> k in ks || k in rest
    requires forall k, x :: k in ks && x in rest ==> Before(o, k, x)
    ensures all != [] && all[0] == ks[0]
  {
    assert ks[0] in ks && ks[0] in all;
    var i :| 0 <= i < |all| && all[i] == ks[0];
    assert all[0] in all;
    if all[0] in ks {
      var j :| 0 <= j < |ks| && ks[j] == all[0];
    }
  }

  lemma {:induction false} PrefixOf(o: Order, all: seq<Key>, ks: seq<Key>, rest: set<Key>, rows: set<Key>)
    requires IsListing(o, all, rows) && Sorted(o, ks)
    requires forall k :: k in rows <==> k in ks || k in rest
    requires forall k, x :: k in ks && x in rest ==> Before(o, k, x)
    ensures ks <= all
    decreases |ks|
  {
    if ks != [] {
      HeadsAgree(o, all, ks, rest, rows);
      TailListing(o, all, rows);
      hide IsListing;
      assert ks == [ks[0]] + ks[1..] && all == [all[0]] + all[1..];
      forall x | x in ks[1..] ensures x != ks[0] {
        var i :| 0 <= i < |ks[1..]| && ks[1..][i] == x;
        assert Before(o, ks[0], ks[i + 1]);
      }
      forall x | x in rest ensures x != ks[0] {
        assert ks[0] in ks;
      }
      PrefixOf(o, all[1..], ks[1..], rest, rows - {all[0]});
    }
  }

  /** After the page's last row, exactly the rest of the listing is ahead. */
  lemma CursorContinues(o: Order, rows: set<Key>, all: seq<Key>, n: nat)
    requires IsListing(o, all, rows) && 1 <= n <= |all|
    ensures IsListing(o, all[n..], Ahead(o, rows, After(all[n - 1])))
  {
    forall k ensures k in all[n..] <==> k in Ahead(o, rows, After(all[n - 1])) {
      if k in all[n..] {
        var i :| n <= i < |all| && all[i] == k;
        assert Before(o, all[n - 1], all[i]);
      }
      if k in Ahead(o, rows, After(all[n - 1])) {
        var i :| 0 <= i < |all| && all[i] == k;
        assert i < n ==> i == n - 1 || Before(o, all[i], all[n - 1]);
        assert i >= n && all[n..][i - n] == k;
      }
    }
  }

  /** Cursors compose: what is ahead of a later cursor does not depend on the pages in between. */
  lemma AheadOfAhead(o: Order, rows: set<Key>, cursor: Cursor, key: Key)
    requires !cursor.Malformed? && key in Ahead(o, rows, cursor)
    ensures Ahead(o, Ahead(o, rows, cursor), After(key)) == Ahead(o, rows, After(key))
  {
  }

  /**
   * Following cursors through pages of any sizes returns every row exactly once, in list order, and
   * ends: `limits(i)` is the size asked for the i-th page.
   */
  method FollowAll(o: Order, rows: set<Key>, limits: nat -> Option<int>) returns (seen: seq<Key>, pages: nat)
    ensures IsListing(o, seen, rows)
    ensures pages <= |rows| + 1
  {
    hide Listing, Ahead, PageLimit, IsListing;
    ghost var left := Listing(o, Ahead(o, rows, Start));
    AheadOfStart(o, rows);
    seen, pages := [], 0;
    ListingSize(o, Listing(o, rows), rows);
    var cursor, more := Start, true;
    while more
      invariant seen + left == Listing(o, rows) && !cursor.Malformed? && pages <= |seen| + (if more then 0 else 1)
      invariant if more then left == Listing(o, Ahead(o, rows, cursor)) else left == []
      decreases if more then |left| + 1 else 0
    {
      var limit := limits(pages);
      var page := List(o, rows, limit, cursor);
      ghost var before := seen;
      seen, pages := seen + page.value.items, pages + 1;
      match page.value.next {
        case None =>
          Assoc(before, left, []);
          left, more := [], false;
        case Some(key) =>
          Halves(left, PageLimit(limit));
          Assoc(before, left[..PageLimit(limit)], left[PageLimit(limit)..]);
          NextPage(o, rows, cursor, left, PageLimit(limit));
          left, cursor := left[PageLimit(limit)..], After(key);
      }
    }
    assert seen == Listing(o, rows);
  }

  lemma Halves(a: seq<Key>, n: nat)
    requires n <= |a|
    ensures a[..n] + a[n..] == a
  {
  }

  lemma Assoc(a: seq<Key>, b: seq<Key>, c: seq<Key>)
    ensures a + b + c == a + (b + c)
  {
  }

  lemma AheadOfStart(o: Order, rows: set<Key>)
    ensures Ahead(o, rows, Start) == rows
  {
  }

  lemma NextPage(o: Order, rows: set<Key>, cursor: Cursor, left: seq<Key>, n: nat)
    requires !cursor.Malformed? && left == Listing(o, Ahead(o, rows, cursor)) && 1 <= n <= |left|
    ensures left[n..] == Listing(o, Ahead(o, rows, After(left[n - 1])))
  {
    hide Listing;
    CursorContinues(o, Ahead(o, rows, cursor), left, n);
    assert left[n - 1] in left;
    AheadOfAhead(o, rows, cursor, left[n - 1]);
    ListingIsUnique(o, left[n..], Listing(o, Ahead(o, rows, After(left[n - 1]))), Ahead(o, rows, After(left[n - 1])));
  }

  // ---------------------------------------------------------------- chats filtered by character

  datatype ChatRow = ChatRow(key: Key, character: Id)

  /** The WHERE clause of `chats.list` with a character and a cursor, as it binds: `filter AND older OR same`. */
  predicate FilteredAsWritten(row: ChatRow, character: Id, cursor: Key) {
    || (row.character == character && row.key.major < cursor.major)
    || (row.key.major == cursor.major && row.key.id < cursor.id)
  }

  predicate FilteredAsMeant(row: ChatRow, character: Id, cursor: Key) {
    row.character == character && Before(Newest, cursor, row.key)
  }

  /** A second page of filtered chats selects the right rows exactly when no other character's chat ties with the cursor. */
  lemma FilteredPageIsRight(rows: set<ChatRow>, character: Id, cursor: Key)
    ensures (forall r :: r in rows ==> (FilteredAsWritten(r, character, cursor) <==> FilteredAsMeant(r, character, cursor))) <==>
            (forall r :: r in rows && r.key.major == cursor.major && r.key.id < cursor.id ==> r.character == character)
  {
    if forall r :: r in rows ==> (FilteredAsWritten(r, character, cursor) <==> FilteredAsMeant(r, character, cursor)) {
      forall r | r in rows && r.key.major == cursor.major && r.key.id < cursor.id ensures r.character == character {
        assert FilteredAsWritten(r, character, cursor) <==> FilteredAsMeant(r, character, cursor);
      }
    }
  }

  /** It is wrong for two chats of different characters created in the same second. */
  lemma FilteredPageGoesWrong()
    ensures var other := ChatRow(Key(7, 1), 2);
      FilteredAsWritten(other, 1, Key(7, 5)) && !FilteredAsMeant(other, 1, Key(7, 5)) && other.character != 1
  {
  }

  /** The chats of one character; a chat table gives the character of each key. */
  function Own(chats: map<Key, Id>, character: Id): set<Key> {
    set k | k in chats && chats[k] == character
  }

  /** The rows that a filtered page selects, by the clause as written. */
  function Selected(chats: map<Key, Id>, character: Id, cursor: Cursor): set<Key> {
    match cursor
    case Start => Own(chats, character)
    case After(key) => set k | k in chats && FilteredAsWritten(ChatRow(k, chats[k]), character, key)
    case Malformed => {}
  }

  predicate IsForeignTie(chats: map<Key, Id>, character: Id, cursor: Key, k: Key) {
    k in chats && chats[k] != character && k.major == cursor.major && k.id < cursor.id
  }

  /** Another character's chat ties with the cursor and has the smaller id. */
  predicate HasTie(chats: map<Key, Id>, character: Id, cursor: Key) {
    exists k :: k in chats && IsForeignTie(chats, character, cursor, k)
  }

  /** The size asked for page `i`; nothing is asked for past the end. */
  function Limit(limits: seq<Option<int>>, i: nat): Option<int> {
    if i < |limits| then limits[i] else None
  }

  function SizeOf(limits: seq<Option<int>>, i: nat): (n: nat)
    ensures n >= 1
  {
    PageLimit(Limit(limits, i))
  }

  /** Cut into pages of the given sizes, from page `i` on, the listing has a page that ends at such a tie, and a page after it. */
  predicate TieAtPageEnd(chats: map<Key, Id>, character: Id, listing: seq<Key>, limits: seq<Option<int>>, i: nat)
    decreases |listing|
  {
    var n := SizeOf(limits, i);
    |listing| > n && (HasTie(chats, character, listing[n - 1]) || TieAtPageEnd(chats, character, listing[n..], limits, i + 1))
  }

  /** `chats.list` with a character. */
  method ListFiltered(chats: map<Key, Id>, character: Id, limit: Option<int>, cursor: Cursor) returns (page: Option<Page>)
    ensures page.None? <==> cursor.Malformed?
    ensures page.Some? ==> page.value == PageOf(Listing(Newest, Selected(chats, character, cursor)), PageLimit(limit))
  {
    if cursor.Malformed? {
      return None;
    }
    var found := FirstPage(Newest, Selected(chats, character, cursor), PageLimit(limit));
    page := Some(found);
  }

  /** Without a tie at its end, a page is followed by the right rows. */
  lemma SelectedIsAhead(chats: map<Key, Id>, character: Id, key: Key)
    requires !HasTie(chats, character, key)
    ensures Selected(chats, character, After(key)) == Ahead(Newest, Own(chats, character), After(key))
  {
    forall k | k in chats ensures !IsForeignTie(chats, character, key, k) {
    }
  }

  /** With one, a foreign row is selected. */
  lemma TieIsSelected(chats: map<Key, Id>, character: Id, key: Key) returns (k: Key)
    requires HasTie(chats, character, key)
    ensures k in chats && chats[k] != character && k in Selected(chats, character, After(key))
  {
    k :| k in chats && IsForeignTie(chats, character, key, k);
  }

  /** A foreign row, once selected, stays selected until it is shown. */
  lemma TieIsShown(chats: map<Key, Id>, character: Id, cursor: Cursor, k: Key, n: nat)
    requires cursor.After? && n >= 1 && k in chats && chats[k] != character && k in Selected(chats, character, cursor)
    ensures var page := PageOf(Listing(Newest, Selected(chats, character, cursor)), n);
      k in page.items || (page.next.Some? && k in Selected(chats, character, After(page.next.value)))
  {
    var all := Listing(Newest, Selected(chats, character, cursor));
    hide Listing;
    if |all| > n {
      assert all[n - 1] in all;
      var i :| 0 <= i < |all| && all[i] == k;
      if i < n {
        assert all[..n][i] == k;
      } else {
        assert Before(Newest, all[n - 1], all[i]);
      }
    }
  }

  /** Every cursor leaves fewer rows behind it. */
  lemma CursorAdvances(chats: map<Key, Id>, character: Id, cursor: Cursor, n: nat)
    requires n >= 1 && !cursor.Malformed?
    ensures var page := PageOf(Listing(Newest, Selected(chats, character, cursor)), n);
      page.next.Some? ==> Ahead(Newest, chats.Keys, After(page.next.value)) < Ahead(Newest, chats.Keys, cursor)
  {
    var all := Listing(Newest, Selected(chats, character, cursor));
    hide Listing;
    if |all| > n {
      var key := all[n - 1];
      assert key in all;
      assert key in Ahead(Newest, chats.Keys, cursor) && key !in Ahead(Newest, chats.Keys, After(key));
      assert forall k :: k in Ahead(Newest, chats.Keys, After(key)) ==> k in Ahead(Newest, chats.Keys, cursor);
    }
  }

  /** The rows `left` are ahead of the cursor, and the clause as written selects them. */
  ghost predicate Faces(chats: map<Key, Id>, character: Id, left: seq<Key>, cursor: Cursor) {
    var ahead := Ahead(Newest, Own(chats, character), cursor);
    !cursor.Malformed? && left == Listing(Newest, ahead) && Selected(chats, character, cursor) == ahead
  }

  /** So far the rows shown are the right ones, and `left` is still to come. */
  ghost predicate OnTrack(chats: map<Key, Id>, character: Id, limits: seq<Option<int>>,
                          seen: seq<Key>, left: seq<Key>, cursor: Cursor, more: bool, pages: nat)
  {
    && seen + left == Listing(Newest, Own(chats, character)) && !cursor.Malformed?
    && (TieAtPageEnd(chats, character, Listing(Newest, Own(chats, character)), limits, 0) <==>
          more && TieAtPageEnd(chats, character, left, limits, pages))
    && if more then Faces(chats, character, left, cursor) else left == []
  }

  lemma FacesOn(chats: map<Key, Id>, character: Id, shown: seq<Key>, left: seq<Key>, cursor: Cursor)
    requires Faces(chats, character, shown + left, cursor) && shown != [] && !HasTie(chats, character, shown[|shown| - 1])
    ensures Faces(chats, character, left, After(shown[|shown| - 1]))
  {
    hide Listing, IsListing, Ahead, Selected, Own, HasTie;
    assert (shown + left)[|shown|..] == left && (shown + left)[|shown| - 1] == shown[|shown| - 1];
    NextPage(Newest, Own(chats, character), cursor, shown + left, |shown|);
    SelectedIsAhead(chats, character, shown[|shown| - 1]);
  }

  /** A page ended at a tie, and the foreign row `k` has been shown or will be. */
  ghost predicate Derailed(chats: map<Key, Id>, character: Id, limits: seq<Option<int>>,
                           seen: seq<Key>, cursor: Cursor, more: bool, k: Key)
  {
    && TieAtPageEnd(chats, character, Listing(Newest, Own(chats, character)), limits, 0)
    && k in chats && chats[k] != character
    && (k in seen || (more && cursor.After? && k in Selected(chats, character, cursor)))
  }

  lemma TrackStarts(chats: map<Key, Id>, character: Id, limits: seq<Option<int>>)
    ensures OnTrack(chats, character, limits, [], Listing(Newest, Own(chats, character)), Start, true, 0)
  {
    hide IsListing, Listing, TieAtPageEnd;
    AheadOfStart(Newest, Own(chats, character));
  }

  /** The last page of a traversal that went right. */
  lemma TrackEnds(chats: map<Key, Id>, character: Id, limits: seq<Option<int>>,
                  seen: seq<Key>, left: seq<Key>, cursor: Cursor, pages: nat, n: nat)
    requires OnTrack(chats, character, limits, seen, left, cursor, true, pages) && n == SizeOf(limits, pages) && |left| <= n
    ensures OnTrack(chats, character, limits, seen + left, [], cursor, false, pages + 1)
  {
    hide IsListing, Listing, Faces, Own, HasTie;
  }

  /** A page that is not the last, and ends without a tie. */
  lemma TrackGoesOn(chats: map<Key, Id>, character: Id, limits: seq<Option<int>>,
                    seen: seq<Key>, shown: seq<Key>, left: seq<Key>, cursor: Cursor, pages: nat)
    requires OnTrack(chats, character, limits, seen, shown + left, cursor, true, pages)
    requires |shown| == SizeOf(limits, pages) && left != [] && !HasTie(chats, character, shown[|shown| - 1])
    ensures OnTrack(chats, character, limits, seen + shown, left, After(shown[|shown| - 1]), true, pages + 1)
  {
    TieStep(chats, character, limits, shown, left, pages);
    hide Listing, IsListing, Faces, Own, HasTie, TieAtPageEnd, PageLimit;
    FacesOn(chats, character, shown, left, cursor);
    Assoc(seen, shown, left);
  }

  lemma TieStep(chats: map<Key, Id>, character: Id, limits: seq<Option<int>>, shown: seq<Key>, left: seq<Key>, pages: nat)
    requires |shown| == SizeOf(limits, pages) && left != []
    ensures TieAtPageEnd(chats, character, shown + left, limits, pages) <==>
      HasTie(chats, character, shown[|shown| - 1]) || TieAtPageEnd(chats, character, left, limits, pages + 1)
  {
    hide HasTie;
    assert (shown + left)[|shown|..] == left;
  }

  /** One that ends at a tie. */
  lemma TrackIsLost(chats: map<Key, Id>, character: Id, limits: seq<Option<int>>,
                    seen: seq<Key>, shown: seq<Key>, left: seq<Key>, cursor: Cursor, pages: nat) returns (k: Key)
    requires OnTrack(chats, character, limits, seen, shown + left, cursor, true, pages)
    requires |shown| == SizeOf(limits, pages) && left != [] && HasTie(chats, character, shown[|shown| - 1])
    ensures Derailed(chats, character, limits, seen + shown, After(shown[|shown| - 1]), true, k)
  {
    k := TieIsSelected(chats, character, shown[|shown| - 1]);
    TieStep(chats, character, limits, shown, left, pages);
    hide Listing, IsListing, Faces, Selected, Own, HasTie, TieAtPageEnd, PageLimit;
  }

  /** The foreign row comes up in the end. */
  lemma StaysDerailed(chats: map<Key, Id>, character: Id, limits: seq<Option<int>>,
                      seen: seq<Key>, cursor: Cursor, k: Key, n: nat)
    requires Derailed(chats, character, limits, seen, cursor, true, k) && n >= 1 && !cursor.Malformed?
    ensures var page := PageOf(Listing(Newest, Selected(chats, character, cursor)), n);
      Derailed(chats, character, limits, seen + page.items, if page.next.Some? then After(page.next.value) else cursor, page.next.Some?, k)
  {
    if k !in seen {
      TieIsShown(chats, character, cursor, k, n);
    }
    hide IsListing, Listing, Selected, Own, PageOf, TieAtPageEnd;
  }

  /** Where a traversal is: right so far, or past a tie with the foreign row it brings. */
  ghost predicate Progress(chats: map<Key, Id>, character: Id, limits: seq<Option<int>>,
                           seen: seq<Key>, left: seq<Key>, cursor: Cursor, more: bool, pages: nat, foreign: Option<Key>)
  {
    && !cursor.Malformed?
    && match foreign
       case None => OnTrack(chats, character, limits, seen, left, cursor, more, pages)
       case Some(k) => Derailed(chats, character, limits, seen, cursor, more, k)
  }

  /** A page that is not the last of a traversal that went right so far. */
  lemma MoreProgress(chats: map<Key, Id>, character: Id, limits: seq<Option<int>>,
                     seen: seq<Key>, shown: seq<Key>, left: seq<Key>, cursor: Cursor, pages: nat)
    returns (foreign: Option<Key>)
    requires OnTrack(chats, character, limits, seen, shown + left, cursor, true, pages)
    requires |shown| == SizeOf(limits, pages) && left != []
    ensures Progress(chats, character, limits, seen + shown, left, After(shown[|shown| - 1]), true, pages + 1, foreign)
  {
    hide OnTrack, Derailed, SizeOf, HasTie;
    if HasTie(chats, character, shown[|shown| - 1]) {
      var k := TrackIsLost(chats, character, limits, seen, shown, left, cursor, pages);
      return Some(k);
    }
    TrackGoesOn(chats, character, limits, seen, shown, left, cursor, pages);
    return None;
  }

  lemma RightProgress(chats: map<Key, Id>, character: Id, limits: seq<Option<int>>,
                      seen: seq<Key>, left: seq<Key>, cursor: Cursor, pages: nat, page: Page)
    returns (left': seq<Key>, foreign: Option<Key>)
    requires OnTrack(chats, character, limits, seen, left, cursor, true, pages) && !cursor.Malformed?
    requires page == PageOf(left, SizeOf(limits, pages))
    ensures Progress(chats, character, limits, seen + page.items, left',
                     if page.next.Some? then After(page.next.value) else cursor, page.next.Some?, pages + 1, foreign)
  {
    hide OnTrack, Derailed, SizeOf;
    var n := SizeOf(limits, pages);
    if |left| <= n {
      TrackEnds(chats, character, limits, seen, left, cursor, pages, n);
      return [], None;
    }
    Halves(left, n);
    left' := left[n..];
    hide Progress;
    foreign := MoreProgress(chats, character, limits, seen, left[..n], left', cursor, pages);
  }

  /** What one page does to it. */
  lemma PageProgress(chats: map<Key, Id>, character: Id, limits: seq<Option<int>>,
                     seen: seq<Key>, left: seq<Key>, cursor: Cursor, pages: nat, foreign: Option<Key>, page: Page)
    returns (left': seq<Key>, foreign': Option<Key>)
    requires Progress(chats, character, limits, seen, left, cursor, true, pages, foreign)
    requires page == PageOf(Listing(Newest, Selected(chats, character, cursor)), SizeOf(limits, pages))
    ensures Progress(chats, character, limits, seen + page.items, left',
                     if page.next.Some? then After(page.next.value) else cursor, page.next.Some?, pages + 1, foreign')
  {
    hide Listing, Selected, OnTrack, Derailed, SizeOf, PageOf;
    if foreign.Some? {
      StaysDerailed(chats, character, limits, seen, cursor, foreign.value, SizeOf(limits, pages));
      return left, foreign;
    }
    FacesListing(chats, character, limits, seen, left, cursor, pages);
    left', foreign' := RightProgress(chats, character, limits, seen, left, cursor, pages, page);
  }

  lemma FacesListing(chats: map<Key, Id>, character: Id, limits: seq<Option<int>>,
                     seen: seq<Key>, left: seq<Key>, cursor: Cursor, pages: nat)
    requires OnTrack(chats, character, limits, seen, left, cursor, true, pages)
    ensures left == Listing(Newest, Selected(chats, character, cursor))
  {
    hide Listing, IsListing, Own, Ahead, Selected, TieAtPageEnd;
  }

  lemma TraversalEnds(chats: map<Key, Id>, character: Id, limits: seq<Option<int>>,
                      seen: seq<Key>, left: seq<Key>, cursor: Cursor, pages: nat, foreign: Option<Key>)
    requires Progress(chats, character, limits, seen, left, cursor, false, pages, foreign)
    ensures IsListing(Newest, seen, Own(chats, character)) <==>
            !TieAtPageEnd(chats, character, Listing(Newest, Own(chats, character)), limits, 0)
  {
    hide Listing, TieAtPageEnd, Ahead, Selected;
    if foreign.None? {
      assert seen + left == seen;
    }
  }

  /**
   * Following the cursors of a filtered listing shows exactly the character's chats, in order, if and
   * only if no page but the last ends at a chat that another character's chat ties with.
   */
  method FollowFiltered(chats: map<Key, Id>, character: Id, limits: seq<Option<int>>) returns (seen: seq<Key>, pages: nat)
    ensures IsListing(Newest, seen, Own(chats, character)) <==>
            !TieAtPageEnd(chats, character, Listing(Newest, Own(chats, character)), limits, 0)
  {
    ghost var left, foreign := Listing(Newest, Own(chats, character)), None;
    TrackStarts(chats, character, limits);
    seen, pages := [], 0;
    var cursor, more := Start, true;
    assert Progress(chats, character, limits, seen, left, cursor, more, pages, foreign) by { hide OnTrack; }
    while more
      invariant !cursor.Malformed? && Progress(chats, character, limits, seen, left, cursor, more, pages, foreign)
      decreases more, Ahead(Newest, chats.Keys, cursor)
    {
      hide Listing, Ahead, PageLimit, Selected, Own, Progress, PageOf;
      var page := ListFiltered(chats, character, Limit(limits, pages), cursor);
      CursorAdvances(chats, character, cursor, SizeOf(limits, pages));
      left, foreign := PageProgress(chats, character, limits, seen, left, cursor, pages, foreign, page.value);
      seen, pages, more := seen + page.value.items, pages + 1, page.value.next.Some?;
      if more {
        cursor := After(page.value.next.value);
      }
      assert Progress(chats, character, limits, seen, left, cursor, more, pages, foreign);
    }
    TraversalEnds(chats, character, limits, seen, left, cursor, pages, foreign);
  }

  /** In particular, it is right whenever no other character's chat shares a timestamp with one of the character's. */
  lemma {:induction false} NoSharedTimestamps(chats: map<Key, Id>, character: Id, listing: seq<Key>, limits: seq<Option<int>>, i: nat)
    requires forall k :: k in listing ==> k in Own(chats, character)
    requires forall a, b :: a in chats && b in chats && chats[a] == character && chats[b] != character ==> a.major != b.major
    ensures !TieAtPageEnd(chats, character, listing, limits, i)
    decreases |listing|
  {
    var n := SizeOf(limits, i);
    if |listing| > n {
      assert listing[n - 1] in listing;
      NoSharedTimestamps(chats, character, listing[n..], limits, i + 1);
    }
  }

  // ---------------------------------------------------------------- the text of a cursor

  /** The text under a cursor's base64: its two parts around a bar. */
  function CursorText(major: string, id: string): string {
    major + "|" + id
  }

  /** `split_once('|')`, with the checks on both parts. */
  function DecodeCursor(text: string): Option<(string, string)> {
    var n := Until(text, '|');
    if n == |text| || n == 0 || n + 1 == |text| then None else Some((text[..n], text[n + 1..]))
  }

  /** Which cursors decode to what they were made of. */
  lemma CursorRoundTrip(major: string, id: string)
    ensures DecodeCursor(CursorText(major, id)) == Some((major, id)) <==> major != "" && id != "" && '|' !in major
  {
    var text := CursorText(major, id);
    UntilMeans(text, '|');
    if '|' !in major {
      UntilOf(major, '|', id);
      assert text == major + ['|'] + id;
      assert text[..|major|] == major && text[|major| + 1..] == id;
    } else {
      var i :| 0 <= i < |major| && major[i] == '|';
      assert text[i] == '|' && Until(text, '|') <= i;
    }
  }
}
