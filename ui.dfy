/** The page logic of the web front end: splitting converted content into
    pages, showing one page, and moving between pages. `src/main.py` carries a
    line-for-line copy of the same functions, so this one model serves both.
    `format_markdown_content` (the `markdown` library) is a parameter
    `format`; everything proved about pages is proved about the text before
    formatting. */
module Ui {

  import opened Wrappers
  import opened Text
  import opened Paths
  import opened FileSystem
  import opened ParserInterface
  import R = Registry
  import Converter

  const Separator: string := "\n\n"
  const NoContent: string := "No content to display"
  const DefaultCharsPerPage: int := 6000

  // ---------------------------------------------------------------- packing sections into pages

  /** What a section adds to the running page length: its length plus two
      for the double newline. */
  function SectionCost(section: string): nat {
    |section| + 2
  }

  /** The running length of a page made of `sections`. */
  function Cost(sections: seq<string>): nat {
    if sections == [] then 0 else SectionCost(sections[0]) + Cost(sections[1..])
  }

  lemma {:induction false} CostAppend(a: seq<string>, b: seq<string>)
    ensures Cost(a + b) == Cost(a) + Cost(b)
  {
    if a == [] {
      assert a + b == b;
    } else {
      assert (a + b)[1..] == a[1..] + b;
      CostAppend(a[1..], b);
    }
  }

  /** All the sections of all the pages, in page order. */
  function Flatten(pages: seq<seq<string>>): seq<string> {
    if pages == [] then [] else pages[0] + Flatten(pages[1..])
  }

  lemma {:induction false} FlattenAppend(pages: seq<seq<string>>, page: seq<string>)
    ensures Flatten(pages + [page]) == Flatten(pages) + page
  {
    if pages == [] {
      assert Flatten([page]) == page + Flatten([]);
    } else {
      assert (pages + [page])[1..] == pages[1..] + [page];
      FlattenAppend(pages[1..], page);
    }
  }

  /** Between pages `i` and `i + 1` of `groups`: the page ended because the
      next page's first section would have pushed it over the budget. */
  ghost predicate BreaksAt(groups: seq<seq<string>>, i: nat, budget: int)
    requires i + 1 < |groups|
  {
    groups[i + 1] != [] && Cost(groups[i]) + SectionCost(groups[i + 1][0]) > budget
  }

  /** `groups` is how the greedy loop packs `sections` under `budget`: the
      pages hold the sections in order with none dropped or added, no page is
      empty, a page with two or more sections stays within the budget, and a
      page ends only because its successor's first section would have pushed
      it over the budget. */
  ghost predicate IsGreedyPacking(groups: seq<seq<string>>, sections: seq<string>, budget: int) {
    && Flatten(groups) == sections
    && (forall i :: 0 <= i < |groups| ==> groups[i] != [])
    && (forall i :: 0 <= i < |groups| && |groups[i]| >= 2 ==> Cost(groups[i]) <= budget)
    && (forall i: nat :: i + 1 < |groups| ==> BreaksAt(groups, i, budget))
  }

  /** The text of each page before formatting. */
  function Unformatted(groups: seq<seq<string>>): (r: seq<string>)
    ensures |r| == |groups|
    ensures forall i :: 0 <= i < |groups| ==> r[i] == Join(groups[i], Separator)
  {
    seq(|groups|, i requires 0 <= i < |groups| => Join(groups[i], Separator))
  }

  /** The pages as shown: each page's text passed through `format`. */
  function Formatted(groups: seq<seq<string>>, format: string -> string): (r: seq<string>)
    ensures |r| == |groups|
    ensures forall i :: 0 <= i < |groups| ==> r[i] == format(Join(groups[i], Separator))
  {
    seq(|groups|, i requires 0 <= i < |groups| => format(Join(groups[i], Separator)))
  }

  lemma FormattedAppend(groups: seq<seq<string>>, page: seq<string>, format: string -> string)
    ensures Formatted(groups + [page], format) == Formatted(groups, format) + [format(Join(page, Separator))]
  {
    var g := groups + [page];
    assert forall k :: 0 <= k < |g| ==> g[k] == if k < |groups| then groups[k] else page;
  }

  /** `pages` is what `split_content_into_pages(content, budget)` returns, and
      `groups` the sections on each page before formatting. */
  ghost predicate IsPagination(content: string, budget: int, format: string -> string,
                               pages: seq<string>, groups: seq<seq<string>>) {
    if content == "" then pages == [NoContent] && groups == []
    else IsGreedyPacking(groups, Split(content, Separator), budget) && pages == Formatted(groups, format)
  }

  lemma {:induction false} JoinFlatten(groups: seq<seq<string>>)
    requires forall i :: 0 <= i < |groups| ==> groups[i] != []
    ensures Join(Flatten(groups), Separator) == Join(Unformatted(groups), Separator)
  {
    if |groups| > 1 {
      var rest := groups[1..];
      JoinFlatten(rest);
      assert Unformatted(groups)[1..] == Unformatted(rest);
      assert Flatten(rest) != [] by { assert rest[0] != []; }
      JoinAppend(groups[0], Flatten(rest), Separator);
    } else if |groups| == 1 {
      assert groups[1..] == [];
      assert Flatten(groups) == groups[0];
      assert Unformatted(groups) == [Join(groups[0], Separator)];
    }
  }

  /** Re-joining the unformatted pages with the double newline gives back the
      content: sections are never dropped, cut or reordered. */
  lemma PaginationRoundTrip(content: string, budget: int, format: string -> string,
                            pages: seq<string>, groups: seq<seq<string>>)
    requires content != "" && IsPagination(content, budget, format, pages, groups)
    ensures Join(Unformatted(groups), Separator) == content
  {
    JoinFlatten(groups);
    JoinSplit(content, Separator);
  }

  /** A page can go over the budget only by holding a single section. */
  lemma OverBudgetPageIsOneSection(groups: seq<seq<string>>, sections: seq<string>, budget: int, i: nat)
    requires IsGreedyPacking(groups, sections, budget) && i < |groups|
    requires Cost(groups[i]) > budget
    ensures |groups[i]| == 1
  {
  }

  lemma FlattenFirst(groups: seq<seq<string>>, sections: seq<string>)
    requires groups != [] && Flatten(groups) == sections
    ensures |groups[0]| <= |sections| && sections[..|groups[0]|] == groups[0]
    ensures Flatten(groups[1..]) == sections[|groups[0]|..]
  {
  }

  /** A packing is empty exactly when there is nothing to pack. */
  lemma EmptyPacking(groups: seq<seq<string>>, sections: seq<string>, budget: int)
    requires IsGreedyPacking(groups, sections, budget)
    ensures groups == [] <==> sections == []
  {
    if groups != [] {
      FlattenFirst(groups, sections);
      assert groups[0] != [];
    }
  }

  /** When a greedy packing's first page does not hold every section, the
      next section opens the second page, and it did not fit on the first. */
  lemma NextSection(g: seq<seq<string>>, sections: seq<string>, budget: int)
    requires IsGreedyPacking(g, sections, budget) && g != [] && |g[0]| < |sections|
    ensures Cost(g[0]) + SectionCost(sections[|g[0]|]) > budget
  {
    var a := g[0];
    FlattenFirst(g, sections);
    var rest := g[1..];
    assert |Flatten(rest)| > 0;
    assert rest != [];
    assert rest[0] == g[1] && g[1] != [];
    FlattenFirst(rest, sections[|a|..]);
    assert g[1][0] == sections[|a|];
    assert BreaksAt(g, 0, budget);
  }

  /** One more section adds its own cost to the running length. */
  lemma CostSnoc(s: seq<string>, k: nat)
    requires k < |s|
    ensures Cost(s[..k + 1]) == Cost(s[..k]) + SectionCost(s[k])
  {
    assert s[..k + 1] == s[..k] + [s[k]];
    CostAppend(s[..k], [s[k]]);
    assert [s[k]][1..] == [];
  }

  /** The running length only grows: a prefix costs no more than the whole. */
  lemma CostPrefix(s: seq<string>, k: nat)
    requires k <= |s|
    ensures Cost(s[..k]) <= Cost(s)
  {
    assert s[..k] + s[k..] == s;
    CostAppend(s[..k], s[k..]);
  }

  /** A first page that ended because the next section did not fit cannot
      be made longer: every longer run of leading sections has two or more
      sections and goes over the budget. */
  lemma LongerFirstPageOverflows(page: seq<string>, longer: seq<string>, sections: seq<string>, budget: int)
    requires page != [] && |page| < |longer| <= |sections|
    requires sections[..|page|] == page && sections[..|longer|] == longer
    requires Cost(page) + SectionCost(sections[|page|]) > budget
    ensures |longer| >= 2 && Cost(longer) > budget
  {
    assert longer[..|page|] == page && longer[|page|] == sections[|page|];
    CostSnoc(longer, |page|);
    CostPrefix(longer, |page| + 1);
  }

  /** Dropping the first page of a greedy packing leaves a greedy packing of
      the remaining sections. */
  lemma GreedyPackingTail(g: seq<seq<string>>, sections: seq<string>, budget: int)
    requires IsGreedyPacking(g, sections, budget) && g != []
    ensures |g[0]| <= |sections| && IsGreedyPacking(g[1..], sections[|g[0]|..], budget)
  {
    FlattenFirst(g, sections);
    var t := g[1..];
    forall i: nat | i + 1 < |t|
      ensures BreaksAt(t, i, budget)
    {
      assert BreaksAt(g, i + 1, budget);
      assert t[i] == g[i + 1] && t[i + 1] == g[i + 2];
    }
  }

  /** The packing conditions leave no choice: there is exactly one greedy
      packing of a list of sections. */
  lemma {:induction false} GreedyPackingUnique(g1: seq<seq<string>>, g2: seq<seq<string>>,
                                               sections: seq<string>, budget: int)
    requires IsGreedyPacking(g1, sections, budget) && IsGreedyPacking(g2, sections, budget)
    ensures g1 == g2
    decreases |sections|
  {
    EmptyPacking(g1, sections, budget);
    EmptyPacking(g2, sections, budget);
    if sections != [] {
      FlattenFirst(g1, sections);
      FlattenFirst(g2, sections);
      var a, c := g1[0], g2[0];
      if |a| < |c| {
        NextSection(g1, sections, budget);
        LongerFirstPageOverflows(a, c, sections, budget);
      } else if |c| < |a| {
        NextSection(g2, sections, budget);
        LongerFirstPageOverflows(c, a, sections, budget);
      }
      assert a == c;
      GreedyPackingTail(g1, sections, budget);
      GreedyPackingTail(g2, sections, budget);
      assert g1[0] != [];
      GreedyPackingUnique(g1[1..], g2[1..], sections[|a|..], budget);
      assert g1 == [a] + g1[1..] && g2 == [c] + g2[1..];
    }
  }

  // ---------------------------------------------------------------- split_content_into_pages

  /** The loop state of `split_content_into_pages` after the sections `done`:
      `groups` are the finished pages and `current` the page being filled. */
  ghost predicate PackedSoFar(groups: seq<seq<string>>, current: seq<string>, done: seq<string>, budget: int) {
    && Flatten(groups) + current == done
    && (forall k :: 0 <= k < |groups| ==> groups[k] != [])
    && (forall k :: 0 <= k < |groups| && |groups[k]| >= 2 ==> Cost(groups[k]) <= budget)
    && (forall k: nat :: k + 1 < |groups| ==> BreaksAt(groups, k, budget))
    && (groups != [] ==> current != [] && Cost(groups[|groups| - 1]) + SectionCost(current[0]) > budget)
    && (|current| >= 2 ==> Cost(current) <= budget)
  }

  /** The section fits (or the page is empty): it joins the current page. */
  lemma PackExtend(groups: seq<seq<string>>, current: seq<string>, sections: seq<string>, i: nat, budget: int)
    requires i < |sections| && PackedSoFar(groups, current, sections[..i], budget)
    requires current == [] || Cost(current) + SectionCost(sections[i]) <= budget
    ensures PackedSoFar(groups, current + [sections[i]], sections[..i + 1], budget)
  {
    var section, done := sections[i], sections[..i];
    assert sections[..i + 1] == done + [section];
    var next := current + [section];
    assert Flatten(groups) + next == done + [section];
    if current == [] {
      assert |next| == 1;
    } else {
      CostAppend(current, [section]);
      assert Cost([section]) == SectionCost(section);
      assert next[0] == current[0];
    }
  }

  /** The section does not fit on a non-empty page: the page is closed and
      the section opens the next one. */
  lemma PackBreak(groups: seq<seq<string>>, current: seq<string>, sections: seq<string>, i: nat, budget: int)
    requires i < |sections| && PackedSoFar(groups, current, sections[..i], budget)
    requires current != [] && Cost(current) + SectionCost(sections[i]) > budget
    ensures PackedSoFar(groups + [current], [sections[i]], sections[..i + 1], budget)
  {
    var section, done := sections[i], sections[..i];
    assert sections[..i + 1] == done + [section];
    FlattenAppend(groups, current);
    var g := groups + [current];
    assert Flatten(g) + [section] == done + [section];
    forall k: nat | k + 1 < |g|
      ensures BreaksAt(g, k, budget)
    {
      if k + 1 < |groups| {
        assert BreaksAt(groups, k, budget);
        assert g[k] == groups[k] && g[k + 1] == groups[k + 1];
      } else {
        assert g[k] == groups[|groups| - 1] && g[k + 1] == current;
      }
    }
    assert forall k :: 0 <= k < |g| ==> g[k] == if k < |groups| then groups[k] else current;
  }

  /** After the last section the current page is closed, giving the greedy
      packing of all sections. */
  lemma PackFinish(groups: seq<seq<string>>, current: seq<string>, sections: seq<string>, budget: int)
    requires sections != [] && PackedSoFar(groups, current, sections[..|sections|], budget)
    ensures current != [] && IsGreedyPacking(groups + [current], sections, budget)
  {
    assert sections[..|sections|] == sections;
    assert current == [] ==> groups == [] && Flatten(groups) + current == [];
    FlattenAppend(groups, current);
    var g := groups + [current];
    forall k: nat | k + 1 < |g|
      ensures BreaksAt(g, k, budget)
    {
      if k + 1 < |groups| {
        assert BreaksAt(groups, k, budget);
        assert g[k] == groups[k] && g[k + 1] == groups[k + 1];
      } else {
        assert g[k] == groups[|groups| - 1] && g[k + 1] == current;
      }
    }
    assert forall k :: 0 <= k < |g| ==> g[k] == if k < |groups| then groups[k] else current;
  }

  /** `split_content_into_pages(content, chars_per_page)`. */
  method SplitContentIntoPages(content: string, charsPerPage: int, format: string -> string)
    returns (pages: seq<string>, ghost groups: seq<seq<string>>)
    ensures IsPagination(content, charsPerPage, format, pages, groups)
    ensures |pages| >= 1
    ensures content != "" ==> Join(Unformatted(groups), Separator) == content
  {
    if content == "" {
      return [NoContent], [];
    }
    var sections := Split(content, Separator);
    pages, groups := [], [];
    var currentPage: seq<string> := [];
    var currentLength := 0;
    for i := 0 to |sections|
      invariant PackedSoFar(groups, currentPage, sections[..i], charsPerPage)
      invariant currentLength == Cost(currentPage)
      invariant pages == Formatted(groups, format)
    {
      var section := sections[i];
      var sectionLength := |section| + 2;
      CostAppend(currentPage, [section]);
      if currentLength + sectionLength > charsPerPage && currentPage != [] {
        var pageContent := Join(currentPage, Separator);
        PackBreak(groups, currentPage, sections, i, charsPerPage);
        FormattedAppend(groups, currentPage, format);
        pages := pages + [format(pageContent)];
        groups := groups + [currentPage];
        currentPage := [section];
        currentLength := sectionLength;
      } else {
        PackExtend(groups, currentPage, sections, i, charsPerPage);
        currentPage := currentPage + [section];
        currentLength := currentLength + sectionLength;
      }
    }
    PackFinish(groups, currentPage, sections, charsPerPage);
    if currentPage != [] {
      var pageContent := Join(currentPage, Separator);
      FormattedAppend(groups, currentPage, format);
      pages := pages + [format(pageContent)];
      groups := groups + [currentPage];
    }
    PaginationRoundTrip(content, charsPerPage, format, pages, groups);
  }

  // ---------------------------------------------------------------- showing and moving between pages

  /** The label `f"Page {n}/{total}"`. */
  function PageInfo(n: nat, total: nat): string {
    "Page " + NatToString(n) + "/" + NatToString(total)
  }

  const InvalidPage: string := "Invalid page"
  const NoPageInfo: string := "Page 0/0"

  predicate ValidPage(pages: seq<string>, pageNumber: int) {
    pages != [] && 1 <= pageNumber <= |pages|
  }

  /** `update_page_content(pages, page_number)`: the page's text, the number
      echoed back, and its label; an empty list or an out-of-range number
      gives the invalid-page triple. */
  function UpdatePageContent(pages: seq<string>, pageNumber: int): (r: (string, int, string))
    ensures r.1 == pageNumber
    ensures ValidPage(pages, pageNumber) ==>
              r.0 == pages[pageNumber - 1] && r.2 == PageInfo(pageNumber, |pages|)
    ensures !ValidPage(pages, pageNumber) ==> r.0 == InvalidPage && r.2 == NoPageInfo
  {
    if pages == [] || pageNumber < 1 || pageNumber > |pages| then (InvalidPage, pageNumber, NoPageInfo)
    else (pages[pageNumber - 1], pageNumber, PageInfo(pageNumber, |pages|))
  }

  /** The label alone tells a valid page from an invalid one: "Page 0/0" is
      never the label of a real page, since real page numbers start at 1. */
  lemma UpdatePageContentFlagsInvalid(pages: seq<string>, pageNumber: int)
    ensures UpdatePageContent(pages, pageNumber).2 == NoPageInfo <==> !ValidPage(pages, pageNumber)
  {
    if ValidPage(pages, pageNumber) {
      var n: nat := pageNumber;
      NatToStringShape(n);
      var info := PageInfo(n, |pages|);
      assert info[5] == NatToString(n)[0];
      assert NoPageInfo[5] == '0';
    }
  }

  /** In a label, the first slash after "Page " comes right after the page
      number. */
  lemma PageInfoSlash(n: nat, total: nat)
    ensures var s, a := PageInfo(n, total), NatToString(n);
            && s[5 + |a|] == '/'
            && forall k :: 5 <= k < 5 + |a| ==> s[k] != '/'
  {
    NatToStringShape(n);
    var s, a := PageInfo(n, total), NatToString(n);
    assert forall k :: 5 <= k < 5 + |a| ==> s[k] == a[k - 5];
  }

  /** Two labels are equal only for the same page of the same number of
      pages. */
  lemma PageInfoInjective(n: nat, total: nat, n': nat, total': nat)
    requires PageInfo(n, total) == PageInfo(n', total')
    ensures n == n' && total == total'
  {
    var a, b, a', b' := NatToString(n), NatToString(total), NatToString(n'), NatToString(total');
    var s := PageInfo(n, total);
    PageInfoSlash(n, total);
    PageInfoSlash(n', total');
    assert s == "Page " + a + "/" + b;
    assert s == "Page " + a' + "/" + b';
    assert |a| == |a'|;
    assert a == s[5..5 + |a|] == a';
    assert b == s[6 + |a|..] == b';
    ParseNatToString(n);
    ParseNatToString(n');
    ParseNatToString(total);
    ParseNatToString(total');
  }

  /** The page `handle_page_navigation` moves to: `current + direction`,
      clamped first from below at 1 and then from above at the number of
      pages. */
  function TargetPage(direction: int, current: int, pageCount: nat): int {
    var newPage := current + direction;
    if newPage < 1 then 1 else if newPage > pageCount then pageCount else newPage
  }

  /** `handle_page_navigation(direction, current, pages)`. With pages to show
      the result is always a valid page, shown with its own label; with none
      it is the invalid-page view. */
  function HandlePageNavigation(direction: int, current: int, pages: seq<string>): (r: (string, int, string))
    ensures pages != [] ==>
              && ValidPage(pages, r.1)
              && r.0 == pages[r.1 - 1] && r.2 == PageInfo(r.1, |pages|)
              && (ValidPage(pages, current + direction) ==> r.1 == current + direction)
    ensures pages == [] ==>
              && r.0 == InvalidPage && r.2 == NoPageInfo
              && r.1 == (if current + direction < 1 then 1 else 0)
  {
    var newPage := TargetPage(direction, current, |pages|);
    var (content, _, pageInfo) := UpdatePageContent(pages, newPage);
    (content, newPage, pageInfo)
  }

  /** Clamping picks the valid page nearest to `current + direction`. */
  lemma NavigationNearest(direction: int, current: int, pages: seq<string>, p: int)
    requires ValidPage(pages, p)
    ensures var target := current + direction;
            var n := HandlePageNavigation(direction, current, pages).1;
            (if n <= target then target - n else n - target) <= (if p <= target then target - p else p - target)
  {
  }

  /** Moving back and then forward by one from a page other than the first
      returns to the page it started from. */
  lemma NavigationBackForth(current: int, pages: seq<string>)
    requires ValidPage(pages, current) && current > 1
    ensures var back := HandlePageNavigation(-1, current, pages).1;
            HandlePageNavigation(1, back, pages) == UpdatePageContent(pages, current)
  {
  }

  // ---------------------------------------------------------------- handle_convert

  /** The page bookkeeping of `handle_convert`: paginate the text with the
      default budget and show the first page, exactly as
      `update_page_content(pages, 1)` would. */
  method FirstView(content: string, format: string -> string)
    returns (display: string, pages: seq<string>, currentPage: int, pageInfo: string, ghost groups: seq<seq<string>>)
    ensures IsPagination(content, DefaultCharsPerPage, format, pages, groups)
    ensures content != "" ==> Join(Unformatted(groups), Separator) == content
    ensures (display, currentPage, pageInfo) == UpdatePageContent(pages, 1)
  {
    pages, groups := SplitContentIntoPages(content, DefaultCharsPerPage, format);
    pageInfo := "Page 1/" + NatToString(|pages|);
    assert pageInfo == PageInfo(1, |pages|) by {
      assert NatToString(1) == "1";
    }
    display := if |pages| > 0 then pages[0] else "";
    currentPage := 1;
  }

  /** `handle_convert`: convert the upload, then show the first page of its
      text. */
  method HandleConvert(disk: Disk, filePath: Option<Path>, parserName: string, ocrMethodName: string,
                       outputFormat: string, reg: R.Registry, backend: Backend, faults: Converter.Faults,
                       format: string -> string)
    returns (display: string, download: Option<Path>, pages: seq<string>, currentPage: int, pageInfo: string,
             ghost content: string, ghost groups: seq<seq<string>>, ghost staged: Option<Path>,
             ghost output: Option<Path>)
    modifies disk
    // `content` is what `convert_file` returned, on every path, and the disk is as it left it
    ensures Converter.Outcome(old(disk.files), disk.files, filePath, parserName, ocrMethodName, outputFormat,
                              reg, backend, faults, content, download, staged, output)
    // the pages paginate that text and the first of them is shown
    ensures IsPagination(content, DefaultCharsPerPage, format, pages, groups)
    ensures content != "" ==> Join(Unformatted(groups), Separator) == content
    ensures (display, currentPage, pageInfo) == UpdatePageContent(pages, 1)
  {
    var converted, downloadFile, stagedInput, outputFile := Converter.ConvertFile(disk, filePath, parserName,
                                                                                ocrMethodName, outputFormat,
                                                                                reg, backend, faults);
    content, download, staged, output := converted, downloadFile, stagedInput, outputFile;
    display, pages, currentPage, pageInfo, groups := FirstView(converted, format);
  }
}
