/** internal/group: cursor-coded pages over the group list, and the walk a reader makes. */
module Paging {
  import opened Text
  import opened Contract
  import opened Base64Url
  import opened Decimal

  datatype PageError = BadLimit | BadCursor

  /** []byte(text) for decimal text, and string(raw) for decoded bytes. */
  function Bytes(text: string): (raw: seq<Byte>)
    requires forall c :: c in text ==> c as int < 256
    ensures |raw| == |text| && forall i :: 0 <= i < |text| ==> raw[i] == text[i] as int
  {
    if text == "" then []
    else
      var first: Byte := (assert text[0] in text; text[0] as int);
      assert forall c :: c in text[1..] ==> c in text;
      [first] + Bytes(text[1..])
  }

  function FromBytes(raw: seq<Byte>): string {
    seq(|raw|, i requires 0 <= i < |raw| => raw[i] as char)
  }

  function Cursor(position: nat): string {
    Encode(Bytes(Itoa(position)))
  }

  function Min(a: int, b: int): int { if a < b then a else b }

  /** Where a page starts, or nothing for a rejected cursor. */
  function Start(cursor: string, length: nat): Option<int> {
    if cursor == "" then Some(0)
    else
      match Decode(cursor)
      case None => None
      case Some(raw) =>
        match Atoi(FromBytes(raw))
        case None => None
        case Some(start) => if start < 0 || start > length then None else Some(start)
  }

  /** Page. */
  function Page(items: seq<CandidateGroup>, cursor: string, limit: int): (page: Result<CandidatePage, PageError>)
    ensures page.Ok? ==> |page.value.items| <= 100 && page.value.total == |items|
  {
    if limit < 1 || limit > 100 then Err(BadLimit)
    else
      match Start(cursor, |items|)
      case None => Err(BadCursor)
      case Some(start) =>
        assert 0 <= start <= |items|;
        var end := Min(start + limit, |items|);
        Ok(CandidatePage(items[start..end], |items|, if end < |items| then Cursor(end) else ""))
  }

  /** What a cursor means: nothing is the start, and anything else is the text of a number, coded. */
  ghost predicate Denotes(cursor: string, position: int) {
    if cursor == "" then position == 0
    else Decode(cursor).Some? && Spelled(FromBytes(Decode(cursor).value), position)
  }

  /** A limit outside 1..100 is refused, then a cursor that denotes no position of the list; otherwise the page
      holds the items from that position on, at most `limit` of them, and a cursor exactly when more follow. */
  lemma PageExactly(items: seq<CandidateGroup>, cursor: string, limit: int)
    requires |items| <= MAX_INT
    ensures Page(items, cursor, limit) == Err(BadLimit) <==> !(1 <= limit <= 100)
    ensures Page(items, cursor, limit).Ok?
            <==> 1 <= limit <= 100 && exists start :: 0 <= start <= |items| && Denotes(cursor, start)
    ensures forall start :: 0 <= start <= |items| && Denotes(cursor, start) && 1 <= limit <= 100 ==>
              var page := Page(items, cursor, limit).value;
              && page.total == |items| && page.items <= items[start..]
              && |page.items| == (if limit < |items| - start then limit else |items| - start)
              && (page.nextCursor == "" <==> start + limit >= |items|)
              && (page.nextCursor != "" ==> Start(page.nextCursor, |items|) == Some(start + limit))
  {
    forall start ensures 0 <= start <= |items| ==> (Denotes(cursor, start) <==> Start(cursor, |items|) == Some(start)) {
      if cursor != "" && Decode(cursor).Some? {
        AtoiExactly(FromBytes(Decode(cursor).value), start);
      }
    }
    forall start | 0 <= start <= |items| && Denotes(cursor, start) && 1 <= limit <= 100 && start + limit < |items|
      ensures Cursor(start + limit) != "" && Start(Cursor(start + limit), |items|) == Some(start + limit) {
      CursorRoundTrip(start + limit, |items|);
    }
  }

  /** A cursor that Page hands out is accepted and means the position it was made from. */
  lemma CursorRoundTrip(position: nat, length: nat)
    requires position <= length <= MAX_INT
    ensures Cursor(position) != ""
    ensures Start(Cursor(position), length) == Some(position)
  {
    var text := Itoa(position);
    var raw := Bytes(text);
    EncodedLetters(raw);
    DecodeEncode(raw);
    assert FromBytes(raw) == text;
    AtoiItoa(position);
  }

  // ---- Following NextCursor ----

  type Pages = seq<Result<CandidatePage, PageError>>

  type Limit = limit: int | 1 <= limit <= 100 witness 1

  /** The pages a reader sees who asks with `limits` in turn and stops at the first page without
      a next cursor, or at a rejection. */
  function Walk(items: seq<CandidateGroup>, cursor: string, limits: seq<Limit>): Pages
    decreases |limits|
  {
    if limits == [] then []
    else
      var page := Page(items, cursor, limits[0]);
      [page] + if page.Err? || page.value.nextCursor == "" then []
               else Walk(items, page.value.nextCursor, limits[1..])
  }

  function Gather(pages: Pages): seq<CandidateGroup> {
    if pages == [] then []
    else (if pages[0].Ok? then pages[0].value.items else []) + Gather(pages[1..])
  }

  function Asked(limits: seq<Limit>): (total: nat)
    ensures total >= |limits|
  {
    if limits == [] then 0 else limits[0] + Asked(limits[1..])
  }

  lemma WalkStep(items: seq<CandidateGroup>, cursor: string, start: nat, limits: seq<Limit>)
    requires |items| <= MAX_INT && limits != []
    requires Start(cursor, |items|) == Some(start)
    ensures start <= |items|
    ensures var end := Min(start + limits[0], |items|);
            && (end < |items| ==> Start(Cursor(end), |items|) == Some(end))
            && var page := Ok(CandidatePage(items[start..end], |items|, if end < |items| then Cursor(end) else ""));
               Walk(items, cursor, limits)
               == [page] + if end < |items| then Walk(items, Cursor(end), limits[1..]) else []
  {
    var end := Min(start + limits[0], |items|);
    if end < |items| {
      CursorRoundTrip(end, |items|);
    }
  }

  /** The walk by positions: `mark` names a position, and is never read back. */
  ghost function PositionWalk(items: seq<CandidateGroup>, mark: nat -> string, start: nat, limits: seq<Limit>): Pages
    requires start <= |items|
    decreases |limits|
  {
    if limits == [] then []
    else
      var end := Min(start + limits[0], |items|);
      [Ok(CandidatePage(items[start..end], |items|, if end < |items| then mark(end) else ""))]
      + if end < |items| then PositionWalk(items, mark, end, limits[1..]) else []
  }

  lemma {:induction false} CursorsArePositions(items: seq<CandidateGroup>, cursor: string, start: nat,
                                               limits: seq<Limit>)
    requires |items| <= MAX_INT && start <= |items|
    requires Start(cursor, |items|) == Some(start)
    ensures Walk(items, cursor, limits) == PositionWalk(items, Cursor, start, limits)
    decreases |limits|
  {
    if limits != [] {
      WalkStep(items, cursor, start, limits);
      var end := Min(start + limits[0], |items|);
      if end < |items| {
        CursorsArePositions(items, Cursor(end), end, limits[1..]);
      }
    }
  }

  ghost predicate Complete(items: seq<CandidateGroup>, pages: Pages) {
    forall page :: page in pages ==> page.Ok? && page.value.total == |items|
  }

  ghost predicate Ended(pages: Pages) {
    pages != [] && pages[|pages| - 1].Ok? && pages[|pages| - 1].value.nextCursor == ""
  }

  /** Pages that start at `start` and serve requests for `asked` items in all. */
  ghost predicate Serves(items: seq<CandidateGroup>, start: nat, asked: nat, pages: Pages)
    requires start <= |items|
  {
    && Complete(items, pages)
    && Gather(pages) == items[start..Min(start + asked, |items|)]
    && (asked > 0 && start + asked >= |items| ==> Ended(pages))
  }

  lemma {:induction false} PositionWalkGathers(items: seq<CandidateGroup>, mark: nat -> string, start: nat,
                                               limits: seq<Limit>)
    requires start <= |items|
    ensures Serves(items, start, Asked(limits), PositionWalk(items, mark, start, limits))
    decreases |limits|
  {
    if limits == [] {
      NothingAsked(items, start);
    } else if start + limits[0] < |items| {
      PositionWalkGathers(items, mark, start + limits[0], limits[1..]);
      FirstPageGathers(items, mark, start, limits);
    } else {
      OnlyPageGathers(items, mark, start, limits);
    }
  }

  lemma FirstPageGathers(items: seq<CandidateGroup>, mark: nat -> string, start: nat, limits: seq<Limit>)
    requires limits != [] && start + limits[0] < |items|
    requires var end := start + limits[0];
             Serves(items, end, Asked(limits[1..]), PositionWalk(items, mark, end, limits[1..]))
    ensures Serves(items, start, Asked(limits), PositionWalk(items, mark, start, limits))
  {
    var end := start + limits[0];
    var rest := PositionWalk(items, mark, end, limits[1..]);
    var page := CandidatePage(items[start..end], |items|, mark(end));
    OnePageMore(items, page, rest, start, limits[0], Asked(limits[1..]));
    assert PositionWalk(items, mark, start, limits) == [Ok(page)] + rest;
  }

  lemma OnlyPageGathers(items: seq<CandidateGroup>, mark: nat -> string, start: nat, limits: seq<Limit>)
    requires limits != [] && start <= |items| <= start + limits[0]
    ensures Serves(items, start, Asked(limits), PositionWalk(items, mark, start, limits))
  {
    var page := CandidatePage(items[start..|items|], |items|, "");
    LastPage(items, page, start, Asked(limits));
    assert PositionWalk(items, mark, start, limits) == [Ok(page)];
  }

  lemma NothingAsked(items: seq<CandidateGroup>, start: nat)
    requires start <= |items|
    ensures Serves(items, start, 0, [])
  {
    assert items[start..start] == [];
  }

  lemma OnePageMore(items: seq<CandidateGroup>, page: CandidatePage, rest: Pages, start: nat, limit: nat, asked: nat)
    requires limit > 0 && start + limit < |items| && Serves(items, start + limit, asked, rest)
    requires page.items == items[start..start + limit] && page.total == |items|
    ensures Serves(items, start, limit + asked, [Ok(page)] + rest)
  {
    var pages: Pages := [Ok(page)] + rest;
    assert pages[1..] == rest;
    WalkJoins(items, pages, rest, start, start + limit, Min(start + limit + asked, |items|));
  }

  lemma LastPage(items: seq<CandidateGroup>, page: CandidatePage, start: nat, asked: nat)
    requires start <= |items| <= start + asked
    requires page == CandidatePage(items[start..], |items|, "")
    ensures Serves(items, start, asked, [Ok(page)])
  {
    var pages: Pages := [Ok(page)];
    assert pages[1..] == [] && items[|items|..] == [];
    WalkJoins(items, pages, [], start, |items|, |items|);
  }

  lemma WalkJoins(items: seq<CandidateGroup>, pages: Pages, rest: Pages, start: nat, end: nat, last: nat)
    requires start <= end <= last <= |items|
    requires pages != [] && pages[1..] == rest
    requires pages[0].Ok? && pages[0].value.items == items[start..end]
    requires Gather(rest) == items[end..last]
    ensures Gather(pages) == items[start..last]
    ensures Ended(rest) ==> Ended(pages)
  {
    assert items[start..end] + items[end..last] == items[start..last];
    assert Gather(pages) == items[start..end] + Gather(rest);
    assert rest != [] ==> pages[|pages| - 1] == rest[|rest| - 1];
  }

  /** No page was rejected, Total is constant, the pages concatenate to a prefix of the list, and with
      one request per item or more the walk has ended with the whole list. */
  ghost predicate ReadsWholeList(items: seq<CandidateGroup>, limits: seq<Limit>, pages: Pages) {
    && Complete(items, pages)
    && Gather(pages) == items[..Min(Asked(limits), |items|)]
    && (limits != [] && |limits| >= |items| ==> Ended(pages) && Gather(pages) == items)
  }

  lemma PositionWalkReads(items: seq<CandidateGroup>, mark: nat -> string, limits: seq<Limit>)
    ensures ReadsWholeList(items, limits, PositionWalk(items, mark, 0, limits))
  {
    PositionWalkGathers(items, mark, 0, limits);
    assert items[0..|items|] == items;
    assert items[0..Min(Asked(limits), |items|)] == items[..Min(Asked(limits), |items|)];
  }

  /** Following NextCursor from the empty cursor, with any limits between 1 and 100. */
  lemma WalkYieldsEverything(items: seq<CandidateGroup>, limits: seq<Limit>)
    requires |items| <= MAX_INT
    ensures ReadsWholeList(items, limits, Walk(items, "", limits))
  {
    CursorsArePositions(items, "", 0, limits);
    PositionWalkReads(items, Cursor, limits);
  }
}
