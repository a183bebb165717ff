/** Listing blobs page by page. */
module Pagination {
  import opened Wrappers
  import opened Text
  import opened Int64
  import opened Store

  datatype ListFilter = ListFilter(bucket: string, search: string, page: int, pageSize: int)

  const MAX_PAGE_SIZE := 100
  const DEFAULT_PAGE_SIZE := 20

  /** SQL LIKE: `%` stands for any text, `_` for any character, a backslash for the next one. */
  function Like(text: string, pattern: string): bool
    decreases |pattern|, |text|
  {
    if pattern == "" then text == ""
    else if pattern[0] == '%' then Like(text, pattern[1..]) || (text != "" && Like(text[1..], pattern))
    else if pattern[0] == '\\' && |pattern| > 1 then text != "" && text[0] == pattern[1]
      && Like(text[1..], pattern[2..])
    else text != "" && (pattern[0] == '_' || pattern[0] == text[0]) && Like(text[1..], pattern[1..])
  }

  predicate Matches(row: Blob, f: ListFilter) {
    && (f.bucket != "" ==> row.bucket == f.bucket)
    && (f.search != "" ==> Like(Lower(row.filename), "%" + Lower(f.search) + "%"))
  }

  function Filtered(rows: seq<Blob>, f: ListFilter): seq<Blob> {
    if rows == [] then [] else (if Matches(rows[0], f) then [rows[0]] else []) + Filtered(rows[1..], f)
  }

  /** The text has this length, and a character wherever the pattern has none of its own: `_` stands
      for any. */
  predicate Fits(text: string, pattern: string) {
    |text| == |pattern| && forall i :: 0 <= i < |text| ==> pattern[i] == '_' || text[i] == pattern[i]
  }

  /** A pattern without `%` and backslash takes its own length off the front. */
  lemma {:induction false} LikeFront(text: string, front: string, rest: string)
    requires '%' !in front && '\\' !in front
    ensures Like(text, front + rest) <==>
      |front| <= |text| && Fits(text[..|front|], front) && Like(text[|front|..], rest)
    decreases |front|
  {
    if front == "" {
      assert front + rest == rest && text[0..] == text;
    } else {
      var pattern := front + rest;
      assert pattern[0] == front[0] && pattern[1..] == front[1..] + rest;
      assert front[0] in front;
      if text != "" {
        LikeFront(text[1..], front[1..], rest);
        if |front| <= |text| {
          assert text[1..][..|front[1..]|] == text[..|front|][1..];
          assert text[1..][|front[1..]|..] == text[|front|..];
          FitsFirst(text[..|front|], front);
        }
      }
    }
  }

  lemma FitsFirst(text: string, pattern: string)
    requires |text| == |pattern| > 0
    ensures Fits(text, pattern) <==> (pattern[0] == '_' || text[0] == pattern[0]) && Fits(text[1..], pattern[1..])
  {
    if Fits(text[1..], pattern[1..]) && (pattern[0] == '_' || text[0] == pattern[0]) {
      forall i | 0 <= i < |text| ensures pattern[i] == '_' || text[i] == pattern[i] {
        assert i > 0 ==> pattern[i] == pattern[1..][i - 1] && text[i] == text[1..][i - 1];
      }
    }
  }

  /** `%` lets any front of the text pass. */
  lemma {:induction false} LikeAny(text: string, rest: string)
    ensures Like(text, "%" + rest) <==> exists k :: 0 <= k <= |text| && Like(text[k..], rest)
    decreases |text|
  {
    var pattern := "%" + rest;
    assert pattern[1..] == rest && text[0..] == text;
    if text != "" {
      LikeAny(text[1..], rest);
      if Like(text[1..], pattern) {
        var k :| 0 <= k <= |text[1..]| && Like(text[1..][k..], rest);
        assert text[1..][k..] == text[k + 1..];
      }
      if k :| 1 <= k <= |text| && Like(text[k..], rest) {
        assert text[k..] == text[1..][k - 1..];
      }
    }
  }

  lemma {:induction false} EndsWithAny(text: string)
    ensures Like(text, "%")
    decreases |text|
  {
    LikeAny(text, "");
    assert "%" + "" == "%" && text[|text|..] == "" && Like("", "");
  }

  /** Between two `%`, a pattern without either is looked for anywhere in the text. */
  lemma SearchIff(text: string, part: string)
    requires '%' !in part && '\\' !in part
    ensures Like(text, "%" + part + "%") <==>
      exists a: string, found: string, b: string :: text == a + found + b && Fits(found, part)
  {
    hide Like, Fits;
    assert "%" + part + "%" == "%" + (part + "%");
    LikeAny(text, part + "%");
    if k :| 0 <= k <= |text| && Like(text[k..], part + "%") {
      LikeFront(text[k..], part, "%");
      assert text == text[..k] + text[k..][..|part|] + text[k..][|part|..];
    }
    if a: string, found: string, b: string :| text == a + found + b && Fits(found, part) {
      FitsLength(found, part);
      assert text[|a|..] == found + b && (found + b)[..|part|] == found && (found + b)[|part|..] == b;
      EndsWithAny(b);
      LikeFront(text[|a|..], part, "%");
    }
  }

  lemma FitsLength(text: string, pattern: string)
    requires Fits(text, pattern)
    ensures |text| == |pattern|
  {
  }

  /** What a pattern says, piece by piece. */
  datatype Mark = Exactly(c: char) | AnyOne | AnyText

  function Marks(pattern: string): seq<Mark> {
    if pattern == "" then []
    else if pattern[0] == '%' then [AnyText] + Marks(pattern[1..])
    else if pattern[0] == '\\' && |pattern| > 1 then [Exactly(pattern[1])] + Marks(pattern[2..])
    else [if pattern[0] == '_' then AnyOne else Exactly(pattern[0])] + Marks(pattern[1..])
  }

  function Flat(parts: seq<string>): string {
    if parts == [] then "" else parts[0] + Flat(parts[1..])
  }

  predicate Allows(mark: Mark, part: string) {
    match mark
    case Exactly(c) => part == [c]
    case AnyOne => |part| == 1
    case AnyText => true
  }

  /** The text is these parts one after the other, each what its mark allows. */
  predicate Fills(text: string, marks: seq<Mark>, parts: seq<string>) {
    && |parts| == |marks| && Flat(parts) == text
    && forall i :: 0 <= i < |marks| ==> Allows(marks[i], parts[i])
  }

  lemma FillsFirst(text: string, marks: seq<Mark>, parts: seq<string>)
    requires marks != [] && parts != []
    ensures Fills(text, marks, parts) <==>
      && parts[0] <= text && Allows(marks[0], parts[0])
      && Fills(text[|parts[0]|..], marks[1..], parts[1..])
  {
    hide Allows;
    if Fills(text, marks, parts) {
      assert text[|parts[0]|..] == Flat(parts[1..]);
    }
    if parts[0] <= text && Allows(marks[0], parts[0]) && Fills(text[|parts[0]|..], marks[1..], parts[1..]) {
      assert text == parts[0] + text[|parts[0]|..];
      forall i | 0 <= i < |marks| ensures Allows(marks[i], parts[i]) {
        assert i > 0 ==> marks[i] == marks[1..][i - 1] && parts[i] == parts[1..][i - 1];
      }
    }
  }

  /** LIKE, for any pattern: the text can be cut into parts, one for each mark. */
  lemma LikeIff(text: string, pattern: string)
    ensures Like(text, pattern) <==> exists parts: seq<string> :: Fills(text, Marks(pattern), parts)
  {
    hide Like, Fills;
    if Like(text, pattern) {
      var parts := LikeParts(text, pattern);
      assert Fills(text, Marks(pattern), parts);
    }
    if parts: seq<string> :| Fills(text, Marks(pattern), parts) {
      PartsLike(text, pattern, parts);
    }
  }

  lemma {:induction false} LikeParts(text: string, pattern: string) returns (parts: seq<string>)
    requires Like(text, pattern)
    ensures Fills(text, Marks(pattern), parts)
    decreases |pattern|, |text|
  {
    if pattern == "" {
      parts := [];
    } else if pattern[0] == '%' {
      if Like(text, pattern[1..]) {
        var rest := LikeParts(text, pattern[1..]);
        parts := [""] + rest;
        assert parts[1..] == rest && text[0..] == text && Marks(pattern)[1..] == Marks(pattern[1..]);
      } else {
        var rest := LikeParts(text[1..], pattern);
        parts := [[text[0]] + rest[0]] + rest[1..];
        FillsFirst(text[1..], Marks(pattern), rest);
        assert parts[1..] == rest[1..] && text == [text[0]] + text[1..];
        assert text[1..][|rest[0]|..] == text[|parts[0]|..];
      }
      FillsFirst(text, Marks(pattern), parts);
    } else {
      var k := if pattern[0] == '\\' && |pattern| > 1 then 2 else 1;
      var rest := LikeParts(text[1..], pattern[k..]);
      parts := [[text[0]]] + rest;
      assert parts[1..] == rest && Marks(pattern)[1..] == Marks(pattern[k..]);
      assert [text[0]] <= text && text[|parts[0]|..] == text[1..];
      FillsFirst(text, Marks(pattern), parts);
    }
  }

  lemma {:induction false} PartsLike(text: string, pattern: string, parts: seq<string>)
    requires Fills(text, Marks(pattern), parts)
    ensures Like(text, pattern)
    decreases |pattern|, |text|
  {
    if pattern != "" {
      FillsFirst(text, Marks(pattern), parts);
      if pattern[0] == '%' {
        if parts[0] == "" {
          assert text[0..] == text;
          PartsLike(text, pattern[1..], parts[1..]);
        } else {
          var shorter := [parts[0][1..]] + parts[1..];
          assert text[0] == parts[0][0];
          assert text[1..][|parts[0][1..]|..] == text[|parts[0]|..];
          FillsFirst(text[1..], Marks(pattern), shorter);
          PartsLike(text[1..], pattern, shorter);
        }
      } else {
        var k := if pattern[0] == '\\' && |pattern| > 1 then 2 else 1;
        assert text[0] == parts[0][0];
        PartsLike(text[1..], pattern[k..], parts[1..]);
      }
    }
  }

  /** A row is listed if and only if it is in the bucket, when one is asked for, and its name
      contains the text searched for, when one is, letter case aside and `_` standing for any
      character: unless the text itself holds `%` or a backslash. */
  lemma MatchesIff(row: Blob, f: ListFilter)
    requires '%' !in Lower(f.search) && '\\' !in Lower(f.search)
    ensures Matches(row, f) <==>
      && (f.bucket == "" || row.bucket == f.bucket)
      && (f.search == "" || exists a: string, found: string, b: string ::
            Lower(row.filename) == a + found + b && Fits(found, Lower(f.search)))
  {
    hide Like, Fits, Lower;
    SearchIff(Lower(row.filename), Lower(f.search));
  }

  /** Positions, one further on. */
  function Shifted(at: seq<nat>): (r: seq<nat>)
    ensures |r| == |at| && forall k :: 0 <= k < |at| ==> r[k] == at[k] + 1
  {
    seq(|at|, k requires 0 <= k < |at| => at[k] + 1)
  }

  lemma ShiftedHolds(at: seq<nat>, i: nat)
    ensures i + 1 in Shifted(at) <==> i in at
    ensures 0 !in Shifted(at)
  {
    var r := Shifted(at);
    if i in at {
      var k :| 0 <= k < |at| && at[k] == i;
      assert r[k] == i + 1;
    }
  }

  /** These rows are found at these positions, which go up. */
  ghost predicate FoundAt(rows: seq<Blob>, found: seq<Blob>, at: seq<nat>) {
    && |at| == |found|
    && (forall k :: 0 <= k < |at| ==> at[k] < |rows| && found[k] == rows[at[k]])
    && (forall j, k :: 0 <= j < k < |at| ==> at[j] < at[k])
  }

  lemma FoundNext(rows: seq<Blob>, found: seq<Blob>, at: seq<nat>)
    requires rows != [] && FoundAt(rows[1..], found, at)
    ensures FoundAt(rows, found, Shifted(at))
    ensures FoundAt(rows, [rows[0]] + found, [0] + Shifted(at))
  {
    hide Shifted;
    forall k | 0 <= k < |at| ensures Shifted(at)[k] < |rows| && found[k] == rows[Shifted(at)[k]] {
      assert rows[1..][at[k]] == rows[at[k] + 1];
    }
  }

  /** The filtered list is the rows that match, in their order. */
  lemma {:induction false} FilteredExact(rows: seq<Blob>, f: ListFilter) returns (at: seq<nat>)
    ensures FoundAt(rows, Filtered(rows, f), at)
    ensures forall i :: 0 <= i < |rows| ==> (i in at <==> Matches(rows[i], f))
    decreases |rows|
  {
    hide Matches, Shifted, FoundAt;
    if rows == [] {
      at := [];
      NothingFound();
    } else {
      var rest := FilteredExact(rows[1..], f);
      at := (if Matches(rows[0], f) then [0] else []) + Shifted(rest);
      PositionsHold(rows, f, rest, at);
      FoundNext(rows, Filtered(rows[1..], f), rest);
      assert [] + Shifted(rest) == Shifted(rest) && [] + Filtered(rows[1..], f) == Filtered(rows[1..], f);
    }
  }

  lemma NothingFound()
    ensures FoundAt([], [], [])
  {
  }

  lemma PositionsHold(rows: seq<Blob>, f: ListFilter, rest: seq<nat>, at: seq<nat>)
    requires rows != [] && at == (if Matches(rows[0], f) then [0] else []) + Shifted(rest)
    requires forall i :: 0 <= i < |rows[1..]| ==> (i in rest <==> Matches(rows[1..][i], f))
    ensures forall i :: 0 <= i < |rows| ==> (i in at <==> Matches(rows[i], f))
  {
    hide Matches, Shifted;
    forall i | 0 <= i < |rows| ensures i in at <==> Matches(rows[i], f) {
      ShiftedHolds(rest, if i > 0 then i - 1 else 0);
      assert i > 0 ==> rows[i] == rows[1..][i - 1];
    }
  }

  /** The repository's clamping of the page number and size. */
  function ClampPage(page: int): (n: int)
    ensures n >= 1
  {
    if page < 1 then 1 else page
  }

  function ClampSize(size: int): (n: int)
    ensures 1 <= n <= MAX_PAGE_SIZE
  {
    if size < 1 then DEFAULT_PAGE_SIZE else if size > MAX_PAGE_SIZE then MAX_PAGE_SIZE else size
  }

  function Min(a: int, b: int): int {
    if a < b then a else b
  }

  /** OFFSET offset LIMIT size; the query has no OFFSET when it is not positive. */
  function Slice(rows: seq<Blob>, offset: int, size: int): seq<Blob>
    requires size >= 1
  {
    var from := if offset <= 0 then 0 else offset;
    if from >= |rows| then [] else rows[from..Min(|rows|, from + size)]
  }

  /** The offset of a page, as far as 64 bits hold it. */
  function Offset(page: int, size: int): int {
    Wrap64((page - 1) * size)
  }

  function PageOf(rows: seq<Blob>, page: int, size: int): seq<Blob>
    requires size >= 1
  {
    Slice(rows, Offset(page, size), size)
  }

  function RepoList(rows: seq<Blob>, f: ListFilter): seq<Blob> {
    PageOf(Filtered(rows, f), ClampPage(f.page), ClampSize(f.pageSize))
  }

  /** The number of pages the service reports for a page size the handler lets through. */
  function Pages(total: nat, pageSize: int): int
    requires pageSize > 0
  {
    if total == 0 then 1 else RoundedUp(total, pageSize)
  }

  /** What a client gets by asking for pages 1 to count. */
  function AllPages(rows: seq<Blob>, f: ListFilter, count: nat): seq<Blob> {
    if count == 0 then [] else AllPages(rows, f, count - 1) + RepoList(rows, f.(page := count))
  }

  function ByBucket(rows: seq<Blob>, bucket: string): seq<Blob> {
    if rows == [] then [] else (if rows[0].bucket == bucket then [rows[0]] else []) + ByBucket(rows[1..], bucket)
  }

  function BySearch(rows: seq<Blob>, search: string): seq<Blob> {
    if rows == [] then []
    else
      var found := Like(Lower(rows[0].filename), "%" + Lower(search) + "%");
      (if found then [rows[0]] else []) + BySearch(rows[1..], search)
  }

  /** The conditions added to the query one after the other are the filter. */
  lemma {:induction false} ConditionsCompose(rows: seq<Blob>, f: ListFilter)
    ensures var narrowed := if f.bucket != "" then ByBucket(rows, f.bucket) else rows;
      (if f.search != "" then BySearch(narrowed, f.search) else narrowed) == Filtered(rows, f)
    decreases |rows|
  {
    hide Like, Lower;
    if rows != [] {
      ConditionsCompose(rows[1..], f);
      var rest := if f.bucket != "" then ByBucket(rows[1..], f.bucket) else rows[1..];
      assert [] + rest == rest;
      SearchFirst(rows[0], rest, f.search);
    }
  }

  lemma SearchFirst(first: Blob, rest: seq<Blob>, search: string)
    ensures BySearch([first] + rest, search)
         == (if Like(Lower(first.filename), "%" + Lower(search) + "%") then [first] else []) + BySearch(rest, search)
  {
    hide Like, Lower;
    assert ([first] + rest)[1..] == rest;
  }

  /** The repository's List: fields are clamped and conditions added step by step. */
  method List(rows: seq<Blob>, f: ListFilter) returns (page: seq<Blob>, total: nat)
    ensures page == RepoList(rows, f) && total == |Filtered(rows, f)|
  {
    var g := f;
    if g.page < 1 {
      g := g.(page := 1);
    }
    if g.pageSize < 1 {
      g := g.(pageSize := DEFAULT_PAGE_SIZE);
    }
    if g.pageSize > MAX_PAGE_SIZE {
      g := g.(pageSize := MAX_PAGE_SIZE);
    }
    var query := rows;
    if g.bucket != "" {
      query := ByBucket(query, g.bucket);
    }
    if g.search != "" {
      query := BySearch(query, g.search);
    }
    ConditionsCompose(rows, f);
    total := |query|;
    page := PageOf(query, g.page, g.pageSize);
  }

  lemma TimesNext(k: int, n: int)
    ensures (k + 1) * n == k * n + n
  {
  }

  /** The first pages are a prefix of the filtered list, as far as their offsets fit 64 bits. */
  lemma {:induction false} PagesArePrefix(rows: seq<Blob>, f: ListFilter, count: nat)
    requires (count - 1) * ClampSize(f.pageSize) <= MAX_INT64
    ensures var n, all := ClampSize(f.pageSize), Filtered(rows, f);
      0 <= count * n && AllPages(rows, f, count) == all[..Min(|all|, count * n)]
    decreases count
  {
    hide Filtered, Slice, Wrap64;
    var n, all := ClampSize(f.pageSize), Filtered(rows, f);
    if count > 0 {
      TimesNext(count - 1, n);
      TimesNext(count - 2, n);
      PagesArePrefix(rows, f, count - 1);
      FilterIgnoresPage(rows, f, count);
      SliceExtends(all, (count - 1) * n, n);
    }
  }

  lemma SliceExtends(all: seq<Blob>, offset: nat, size: int)
    requires size >= 1
    ensures all[..Min(|all|, offset)] + Slice(all, offset, size) == all[..Min(|all|, offset + size)]
  {
  }

  lemma {:induction false} FilterIgnoresPage(rows: seq<Blob>, f: ListFilter, page: int)
    ensures Filtered(rows, f.(page := page)) == Filtered(rows, f)
    decreases |rows|
  {
    if rows != [] {
      FilterIgnoresPage(rows[1..], f, page);
      assert Matches(rows[0], f.(page := page)) == Matches(rows[0], f);
    }
  }

  lemma Grows(a: int, b: int, n: int)
    requires n > 0 && a <= b
    ensures a * n <= b * n
  {
  }

  /** What a page holds, as far as its offset fits 64 bits. Page numbers below 1 mean page 1, page
      sizes below 1 mean 20, and those above 100 mean 100. */
  lemma PageExact(rows: seq<Blob>, f: ListFilter)
    ensures var all := Filtered(rows, f);
      var n := if f.pageSize < 1 then 20 else if f.pageSize > 100 then 100 else f.pageSize;
      var p := if f.page < 1 then 1 else f.page;
      0 <= (p - 1) * n <= MAX_INT64 ==> RepoList(rows, f) == all[Min(|all|, (p - 1) * n)..Min(|all|, p * n)]
  {
    hide Filtered, Wrap64;
    TimesNext(ClampPage(f.page) - 1, ClampSize(f.pageSize));
  }

  /** When the count rounds up, pages 1 to Pages have offsets within 64 bits and cover the list. */
  lemma PagesCover(total: nat, pageSize: int)
    requires total <= MAX_INT64 && 0 < pageSize <= MAX_INT64
    ensures var pages := Pages(total, pageSize);
      && (pages >= 1 <==> total + pageSize - 1 <= MAX_INT64)
      && (pages >= 1 ==> total <= pages * pageSize && (pages - 1) * pageSize <= total)
  {
    hide RoundedUp;
    if total > 0 {
      RoundsUpIff(total, pageSize);
    }
  }

  /** With a page size the repository does not clamp, pages 1 to Pages are the filtered list, once
      each and in order, if and only if rounding the count up fits 64 bits. A later page is empty
      exactly when its offset, as far as 64 bits hold it, is not before the end of the list: so
      it is whenever the offset fits. */
  lemma PagesPartition(rows: seq<Blob>, f: ListFilter, later: nat)
    requires 1 <= f.pageSize <= MAX_PAGE_SIZE && |Filtered(rows, f)| <= MAX_INT64
    ensures var all, n := Filtered(rows, f), f.pageSize;
      var pages := Pages(|all|, n);
      && (pages >= 1 && AllPages(rows, f, pages) == all <==> |all| + n - 1 <= MAX_INT64)
      && (later > pages >= 1 ==>
            (RepoList(rows, f.(page := later)) == [] <==> all == [] || |all| <= Offset(later, n)))
      && (later > pages >= 1 && (later - 1) * n <= MAX_INT64 ==> RepoList(rows, f.(page := later)) == [])
  {
    hide Filtered, AllPages, Wrap64, Pages;
    var all, n := Filtered(rows, f), f.pageSize;
    var pages := Pages(|all|, n);
    PagesCover(|all|, n);
    FilterIgnoresPage(rows, f, later);
    if pages >= 1 {
      PagesArePrefix(rows, f, pages);
      assert all[..|all|] == all;
      if later > pages {
        Grows(pages, later - 1, n);
      }
    }
  }

  /** Above the largest page size, the service counts pages by the size asked for while the
      repository serves 100 rows a page: pages 1 to Pages then cover only a prefix. No page at all
      is counted exactly when rounding up does not fit 64 bits. */
  lemma PagesBeyondLimit(rows: seq<Blob>, f: ListFilter)
    requires MAX_PAGE_SIZE < f.pageSize <= MAX_INT64 && |Filtered(rows, f)| <= MAX_INT64
    ensures var all := Filtered(rows, f);
      var pages := Pages(|all|, f.pageSize);
      && (pages >= 1 <==> |all| + f.pageSize - 1 <= MAX_INT64)
      && (pages >= 1 ==>
            && AllPages(rows, f, pages) == all[..Min(|all|, MAX_PAGE_SIZE * pages)]
            && (AllPages(rows, f, pages) == all <==> |all| <= MAX_PAGE_SIZE * pages))
  {
    hide Filtered, AllPages, Wrap64, Pages;
    var all := Filtered(rows, f);
    var pages := Pages(|all|, f.pageSize);
    PagesCover(|all|, f.pageSize);
    if pages >= 1 {
      Smaller(pages - 1, MAX_PAGE_SIZE, f.pageSize);
      PagesArePrefix(rows, f, pages);
      assert MAX_PAGE_SIZE * pages == pages * MAX_PAGE_SIZE;
    }
  }

  lemma Smaller(k: nat, a: int, b: int)
    requires a <= b
    ensures k * a <= k * b
  {
  }

  /** A page number far beyond the last page whose offset wraps around to 0: the first rows again. */
  lemma LaterPageNotEmpty(rows: seq<Blob>, f: ListFilter)
    requires f.pageSize == 4 && Filtered(rows, f) != []
    ensures var later := f.(page := 4611686018427387905);
      RepoList(rows, later) == RepoList(rows, f.(page := 1)) != []
  {
    hide Filtered;
    FilterIgnoresPage(rows, f, 1);
    FilterIgnoresPage(rows, f, 4611686018427387905);
    assert Wrap64(4611686018427387904 * 4) == 0;
  }

  /** Two rows and the largest page size: the sum wraps around, and -1 pages are reported. */
  lemma NegativePages()
    ensures Pages(2, MAX_INT64) == -1
  {
    assert Wrap64(2 + MAX_INT64 - 1) == MIN_INT64;
    assert 0x8000_0000_0000_0000 / MAX_INT64 == 1;
  }
}
