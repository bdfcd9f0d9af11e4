/**
 * `render_navigation` (src/main.rs:88-104): a prev control, a page label and a next
 * control, each in its own cell.
 */
module Navigation {
  import opened Word16
  import opened Decimal
  import opened Strings

  const NAV_OPEN: string := "      <div class=\"navigation-div\">"
  const NAV_CLOSE: string := "</div>\n"
  const CELL_OPEN: string := "<div class=\"navigation-c\">"
  const CELL_CLOSE: string := "</div>"

  /** The last characters of a next control holding a link, with the closing tag of the fragment. */
  const NEXT_LINK_TAIL: string := "next" + ANCHOR_CLOSE + CELL_CLOSE + NAV_CLOSE

  predicate EndsWith(s: string, suffix: string) {
    |suffix| <= |s| && s[|s| - |suffix|..] == suffix
  }

  lemma SuffixOfAppend(a: string, b: string, c: string)
    requires EndsWith(b, c)
    ensures EndsWith(a + b, c)
  {
    assert (a + b)[|a + b| - |c|..] == b[|b| - |c|..];
  }

  lemma SuffixTransitive(a: string, b: string, c: string)
    requires EndsWith(a, b) && EndsWith(b, c)
    ensures EndsWith(a, c)
  {
    assert a[|a| - |c|..] == a[|a| - |b|..][|b| - |c|..];
  }

  function Cell(inner: string): string {
    CELL_OPEN + inner + CELL_CLOSE
  }

  const ANCHOR_OPEN: string := "<a href=\""
  const QUERY: string := "?page="
  const ANCHOR_MID: string := "\">"
  const ANCHOR_CLOSE: string := "</a>"

  /** `<a href="{path}?page={target}">{caption}</a>` */
  function PageLink(path: string, target: nat, caption: string): string {
    ANCHOR_OPEN + path + QUERY + NatToDecimal(target) + ANCHOR_MID + caption + ANCHOR_CLOSE
  }

  function PrevCell(path: string, page: U16): string {
    if page == 1 then Cell("prev") else Cell(PageLink(path, Wrap(page - 1), "prev"))
  }

  const LABEL_OPEN: string := " PAGE "
  const LABEL_CLOSE: string := " "

  function LabelCell(page: U16): string {
    Cell(LABEL_OPEN + NatToDecimal(page) + LABEL_CLOSE)
  }

  function NextCell(path: string, page: U16, maxPages: U16): string {
    if page < maxPages then Cell(PageLink(path, page + 1, "next")) else Cell("next")
  }

  /** The fragment `render_navigation` returns. */
  function NavigationHtml(path: string, page: U16, maxPages: U16): string {
    NAV_OPEN + PrevCell(path, page) + LabelCell(page) + NextCell(path, page, maxPages) + NAV_CLOSE
  }

  lemma PrefixOfAppend(a: string, b: string, c: string)
    requires a <= b
    ensures a <= b + c
  {
    assert (b + c)[..|a|] == b[..|a|];
  }

  /** A string is no prefix of another that differs from it at a position both have. */
  lemma NotPrefixAt(a: string, b: string, k: nat)
    requires k < |a| && k < |b| && a[k] != b[k]
    ensures !(a <= b)
  {
  }

  /**
   * The prev control is inert text exactly on page 1; on any other page it links to
   * page - 1 (computed on `u16`).
   */
  lemma PrevControl(path: string, page: U16, maxPages: U16)
    ensures NAV_OPEN + Cell("prev") <= NavigationHtml(path, page, maxPages) <==> page == 1
    ensures page != 1 ==>
      NAV_OPEN + Cell(PageLink(path, Wrap(page - 1), "prev")) <= NavigationHtml(path, page, maxPages)
  {
    var out := NavigationHtml(path, page, maxPages);
    var start := NAV_OPEN + PrevCell(path, page);
    var pageLabel := LabelCell(page);
    var next := NextCell(path, page, maxPages);
    assert out == start + pageLabel + next + NAV_CLOSE;
    PrefixOfAppend(start, start, pageLabel);
    PrefixOfAppend(start, start + pageLabel, next);
    PrefixOfAppend(start, start + pageLabel + next, NAV_CLOSE);
    if page != 1 {
      var k := |NAV_OPEN + CELL_OPEN|;
      assert (NAV_OPEN + Cell("prev"))[k] == 'p';
      assert PrevCell(path, page)[|CELL_OPEN|] == '<';
      assert out[k] == start[k] == '<';
      NotPrefixAt(NAV_OPEN + Cell("prev"), out, k);
    }
  }

  /** A next control linking to any page ends, with the closing tag, in NEXT_LINK_TAIL. */
  lemma LinkCellTail(path: string, target: nat)
    ensures EndsWith(Cell(PageLink(path, target, "next")) + NAV_CLOSE, NEXT_LINK_TAIL)
  {
    var inner := ANCHOR_OPEN + path + QUERY + NatToDecimal(target) + ANCHOR_MID;
    var front := CELL_OPEN + inner;
    assert Cell(PageLink(path, target, "next")) == CELL_OPEN + (inner + "next" + ANCHOR_CLOSE) + CELL_CLOSE;
    AppendAssoc(CELL_OPEN, inner + "next", ANCHOR_CLOSE);
    AppendAssoc(CELL_OPEN, inner, "next");
    AppendAssoc(front, "next" + ANCHOR_CLOSE + CELL_CLOSE, NAV_CLOSE);
    AppendAssoc(front, "next" + ANCHOR_CLOSE, CELL_CLOSE);
    AppendAssoc(front, "next", ANCHOR_CLOSE);
    assert Cell(PageLink(path, target, "next")) + NAV_CLOSE == front + NEXT_LINK_TAIL;
    SuffixOfAppend(front, NEXT_LINK_TAIL, NEXT_LINK_TAIL);
  }

  /**
   * A text ending with `x` cannot also end with `y` when `x` and `y` end in two
   * tails of one length that differ in their first character.
   */
  lemma SuffixExcludes(s: string, x: string, y: string, tx: string, ty: string)
    requires EndsWith(s, x) && EndsWith(x, tx) && EndsWith(y, ty)
    requires 0 < |tx| == |ty| && tx[0] != ty[0]
    ensures !EndsWith(s, y)
  {
    SuffixTransitive(s, x, tx);
    assert s[|s| - |tx|] == tx[0];
  }

  /** The inert next cell and a next link end in tails of one length that differ at their start. */
  lemma NextCellTails(path: string, target: nat) returns (inertTail: string)
    ensures EndsWith(Cell("next") + NAV_CLOSE, inertTail)
    ensures EndsWith(Cell(PageLink(path, target, "next")) + NAV_CLOSE, NEXT_LINK_TAIL)
    ensures 0 < |inertTail| == |NEXT_LINK_TAIL| && inertTail[0] != NEXT_LINK_TAIL[0]
  {
    var front := "<div class=\"navigation";
    inertTail := "-c\">next" + CELL_CLOSE + NAV_CLOSE;
    assert Cell("next") + NAV_CLOSE == front + inertTail;
    SuffixOfAppend(front, inertTail, inertTail);
    LinkCellTail(path, target);
  }

  /** The fragment ends with the next cell and the closing tag of the navigation division. */
  lemma NextCellAtEnd(path: string, page: U16, maxPages: U16)
    ensures EndsWith(NavigationHtml(path, page, maxPages), NextCell(path, page, maxPages) + NAV_CLOSE)
  {
    var head := NAV_OPEN + PrevCell(path, page) + LabelCell(page);
    var tail := NextCell(path, page, maxPages) + NAV_CLOSE;
    AppendAssoc(head, NextCell(path, page, maxPages), NAV_CLOSE);
    SuffixOfAppend(head, tail, tail);
  }

  /** Below the page count, the fragment ends with a link to the next page and not with the inert cell. */
  lemma NextControlLinks(path: string, page: U16, maxPages: U16)
    requires page < maxPages
    ensures EndsWith(NavigationHtml(path, page, maxPages), Cell(PageLink(path, page + 1, "next")) + NAV_CLOSE)
    ensures !EndsWith(NavigationHtml(path, page, maxPages), Cell("next") + NAV_CLOSE)
  {
    var out := NavigationHtml(path, page, maxPages);
    NextCellAtEnd(path, page, maxPages);
    var inertTail := NextCellTails(path, page + 1);
    SuffixExcludes(out, NextCell(path, page, maxPages) + NAV_CLOSE, Cell("next") + NAV_CLOSE, NEXT_LINK_TAIL, inertTail);
  }

  /**
   * From the page count on, the fragment ends with the inert cell `next`, and not
   * with a link to the next page.
   */
  lemma NextControlInert(path: string, page: U16, maxPages: U16)
    requires page >= maxPages
    ensures EndsWith(NavigationHtml(path, page, maxPages), Cell("next") + NAV_CLOSE)
    ensures !EndsWith(NavigationHtml(path, page, maxPages), Cell(PageLink(path, page + 1, "next")) + NAV_CLOSE)
  {
    var out := NavigationHtml(path, page, maxPages);
    NextCellAtEnd(path, page, maxPages);
    var inertTail := NextCellTails(path, page + 1);
    SuffixExcludes(out, Cell("next") + NAV_CLOSE, Cell(PageLink(path, page + 1, "next")) + NAV_CLOSE, inertTail, NEXT_LINK_TAIL);
  }

  /**
   * The next control links to page + 1 exactly when the page is below the page
   * count; otherwise, and so always when the page count is 0, it is the inert cell.
   */
  lemma NextControl(path: string, page: U16, maxPages: U16)
    ensures EndsWith(NavigationHtml(path, page, maxPages), Cell(PageLink(path, page + 1, "next")) + NAV_CLOSE)
      <==> page < maxPages
    ensures EndsWith(NavigationHtml(path, page, maxPages), Cell("next") + NAV_CLOSE) <==> page >= maxPages
    ensures maxPages == 0 ==> EndsWith(NavigationHtml(path, page, maxPages), Cell("next") + NAV_CLOSE)
  {
    if page < maxPages {
      NextControlLinks(path, page, maxPages);
    } else {
      NextControlInert(path, page, maxPages);
    }
  }

  /** Where the prev cell's content starts in the fragment. */
  const PREV_MARK: nat := |NAV_OPEN| + |CELL_OPEN|

  /**
   * The prev cell's content is the text `prev` on page 1 and an anchor on any other
   * page, so the fragments of page 1 and of any other page differ at PREV_MARK.
   */
  lemma PrevMarker(path: string, page: U16, maxPages: U16)
    ensures page == 1 ==> NAV_OPEN + CELL_OPEN + "prev" <= NavigationHtml(path, page, maxPages)
    ensures page != 1 ==> NAV_OPEN + CELL_OPEN + ANCHOR_OPEN <= NavigationHtml(path, page, maxPages)
    ensures PREV_MARK < |NavigationHtml(path, page, maxPages)|
    ensures NavigationHtml(path, page, maxPages)[PREV_MARK] == if page == 1 then 'p' else '<'
  {
    var out := NavigationHtml(path, page, maxPages);
    var start := NAV_OPEN + PrevCell(path, page);
    var rest := LabelCell(page) + NextCell(path, page, maxPages) + NAV_CLOSE;
    AppendAssoc(start, LabelCell(page) + NextCell(path, page, maxPages), NAV_CLOSE);
    AppendAssoc(start, LabelCell(page), NextCell(path, page, maxPages));
    assert out == start + rest;
    var content := if page == 1 then "prev" else PageLink(path, Wrap(page - 1), "prev");
    var head := if page == 1 then "prev" else ANCHOR_OPEN;
    assert head <= content;
    var front := NAV_OPEN + CELL_OPEN + head;
    assert start == NAV_OPEN + CELL_OPEN + content + CELL_CLOSE by {
      AppendAssoc(NAV_OPEN, CELL_OPEN + content, CELL_CLOSE);
      AppendAssoc(NAV_OPEN, CELL_OPEN, content);
    }
    assert front <= start by {
      assert start[..|front|] == (NAV_OPEN + CELL_OPEN + content)[..|front|];
    }
    PrefixOfAppend(front, start, rest);
    assert out[PREV_MARK] == front[PREV_MARK] == head[0];
  }

  /** The label cell reads ` PAGE n ` for the page as requested, and follows the prev cell. */
  lemma PageLabel(path: string, page: U16, maxPages: U16)
    ensures NAV_OPEN + PrevCell(path, page) + Cell(" PAGE " + NatToDecimal(page) + " ")
      <= NavigationHtml(path, page, maxPages)
  {
  }

  /**
   * Page 0 is rendered as requested: its label is ` PAGE 0 ` and, as 0 - 1 wraps
   * on `u16`, its prev control links to page 65535.
   */
  lemma PageZeroNavigation(path: string, maxPages: U16)
    ensures NAV_OPEN + Cell(PageLink(path, 65535, "prev")) + Cell(" PAGE 0 ")
      <= NavigationHtml(path, 0, maxPages)
  {
    var start := NAV_OPEN + PrevCell(path, 0) + LabelCell(0);
    assert PrevCell(path, 0) == Cell(PageLink(path, 65535, "prev"));
    assert LabelCell(0) == Cell(" PAGE 0 ") by {
      assert NatToDecimal(0) == "0";
      assert LABEL_OPEN + "0" + LABEL_CLOSE == " PAGE 0 ";
    }
    PrefixOfAppend(start, start, NextCell(path, 0, maxPages));
    PrefixOfAppend(start, start + NextCell(path, 0, maxPages), NAV_CLOSE);
  }

  /** `render_navigation`: append the three cells to the buffer one by one. */
  method RenderNavigation(path: string, page: U16, maxPages: U16) returns (out: string)
    ensures out == NavigationHtml(path, page, maxPages)
  {
    out := "";
    out := out + NAV_OPEN;
    EmptyAppend(NAV_OPEN);
    if page == 1 {
      out := out + Cell("prev");
    } else {
      out := out + Cell(PageLink(path, Wrap(page - 1), "prev"));
    }
    assert out == NAV_OPEN + PrevCell(path, page);
    out := out + Cell(LABEL_OPEN + NatToDecimal(page) + LABEL_CLOSE);
    if page < maxPages {
      out := out + Cell(PageLink(path, page + 1, "next"));
    } else {
      out := out + Cell("next");
    }
    assert out == NAV_OPEN + PrevCell(path, page) + LabelCell(page) + NextCell(path, page, maxPages);
    out := out + NAV_CLOSE;
  }

  /** Page 1 of 2: inert prev, the label ` PAGE 1 `, and a next control linking to page 2. */
  lemma FirstOfTwoPages(path: string)
    ensures NAV_OPEN + Cell("prev") + Cell(" PAGE 1 ") <= NavigationHtml(path, 1, 2)
    ensures EndsWith(NavigationHtml(path, 1, 2), Cell(PageLink(path, 2, "next")) + NAV_CLOSE)
  {
    PageLabel(path, 1, 2);
    assert NatToDecimal(1) == "1";
    NextControl(path, 1, 2);
  }
}
