/**
 * The news page (news_app.py): a search over the title or the content of
 * the collected articles, and the date column rewritten as text on the
 * loaded table after the search. Without a search term the shown table is
 * the loaded table itself, so it shows the rewritten dates; with a term it
 * is a new table taken before the rewrite, so it does not.
 */
module News {
  import opened Wrappers
  import opened Text
  import opened Tables

  const AnchorOpen := "<a target=\"_blank\" href=\""
  const AnchorMiddle := "\">"
  const AnchorClose := "</a>"

  /** `make_clickable(val)`: an HTML link opening `val` in a new tab, with `val` as its text. */
  function MakeClickable(v: string): string {
    AnchorOpen + v + AnchorMiddle + v + AnchorClose
  }

  /** The address of a link `MakeClickable` built, if `s` is one. */
  function LinkTarget(s: string): (r: Option<string>)
    ensures r.Some? ==> MakeClickable(r.value) == s
  {
    var n := |s| - |AnchorOpen| - |AnchorMiddle| - |AnchorClose|;
    if n < 0 || n % 2 != 0 then None
    else
      var v := s[|AnchorOpen|..|AnchorOpen| + n / 2];
      if MakeClickable(v) == s then Some(v) else None
  }

  /** Every link the builder makes is recognised, with its address. */
  lemma LinkTargetOfClickable(v: string)
    ensures LinkTarget(MakeClickable(v)) == Some(v)
  {
    var s := MakeClickable(v);
    assert s[|AnchorOpen|..|AnchorOpen| + |v|] == v;
  }

  /** Different addresses give different links. */
  lemma ClickableInjective(v: string, w: string)
    requires MakeClickable(v) == MakeClickable(w)
    ensures v == w
  {
    LinkTargetOfClickable(v);
    LinkTargetOfClickable(w);
  }

  /** The article date ('기사날짜'): a timestamp as loaded, or the 'YYYY-MM-DD' text written over it. */
  datatype DateCell = Stamp(day: int) | Formatted(text: string)

  /** One article: title ('제목'), content ('내용'), link ('URL') and date. */
  datatype Article = Article(title: Option<string>, content: Option<string>, url: string, published: DateCell)

  /** The two columns the selector offers, '제목' and '내용'; no other column can be searched. */
  datatype NewsColumn = Title | Content

  function CellOf(c: NewsColumn): Article -> Option<string> {
    match c
    case Title => (a: Article) => a.title
    case Content => (a: Article) => a.content
  }

  /** The search of the page; an empty term keeps every article. */
  function SearchNews(rows: seq<Article>, column: NewsColumn, term: string): (r: seq<Article>)
    ensures term == "" ==> r == rows
    ensures term != "" ==> forall x :: x in r ==> x in rows && TextMatches(CellOf(column)(x), term)
    ensures term != "" ==> forall x :: x in rows && TextMatches(CellOf(column)(x), term) ==> x in r
    ensures IsSubsequence(r, rows)
  {
    TextSearch(rows, CellOf(column), term)
  }

  /**
   * The rewrite of one date cell as 'YYYY-MM-DD' text; `fmt` is the
   * calendar formatting of a day. A cell already written as text is taken
   * to be in that format and stays as it is.
   */
  function Reformat(c: DateCell, fmt: int -> string): (r: DateCell)
    ensures r.Formatted?
    ensures c.Stamp? ==> r.text == fmt(c.day)
  {
    match c
    case Stamp(d) => Formatted(fmt(d))
    case Formatted(t) => c
  }

  function ReformatArticle(a: Article, fmt: int -> string): Article {
    a.(published := Reformat(a.published, fmt))
  }

  /** The table after the date column is rewritten: only dates change, and all become text. */
  function Reformatted(rows: seq<Article>, fmt: int -> string): (r: seq<Article>)
    ensures |r| == |rows|
    ensures forall i :: 0 <= i < |rows| ==>
              r[i].published.Formatted? && r[i].title == rows[i].title &&
              r[i].content == rows[i].content && r[i].url == rows[i].url
    decreases |rows|
  {
    if rows == [] then [] else [ReformatArticle(rows[0], fmt)] + Reformatted(rows[1..], fmt)
  }

  /** Rewriting the dates twice is rewriting them once. */
  lemma {:induction false} ReformattedIdempotent(rows: seq<Article>, fmt: int -> string)
    ensures Reformatted(Reformatted(rows, fmt), fmt) == Reformatted(rows, fmt)
    decreases |rows|
  {
    if rows != [] {
      ReformattedIdempotent(rows[1..], fmt);
      assert Reformatted(rows, fmt)[1..] == Reformatted(rows[1..], fmt);
    }
  }

  /**
   * The rewrite touches neither title nor content, so searching the
   * rewritten table finds the rewritten search result: the shown tables of
   * the two orders differ only in how their dates are written.
   */
  lemma {:induction false} SearchThenReformat(rows: seq<Article>, column: NewsColumn, term: string, fmt: int -> string)
    ensures SearchNews(Reformatted(rows, fmt), column, term) == Reformatted(SearchNews(rows, column, term), fmt)
    decreases |rows|
  {
    if term != "" && rows != [] {
      SearchThenReformat(rows[1..], column, term, fmt);
      var keep := (x: Article) => TextMatches(CellOf(column)(x), term);
      var rr := Reformatted(rows, fmt);
      assert rr[1..] == Reformatted(rows[1..], fmt);
      assert CellOf(column)(rr[0]) == CellOf(column)(rows[0]);
      if keep(rows[0]) {
        var rest := SearchNews(rows[1..], column, term);
        assert SearchNews(rows, column, term) == [rows[0]] + rest;
        assert Reformatted([rows[0]] + rest, fmt) == [ReformatArticle(rows[0], fmt)] + Reformatted(rest, fmt) by {
          assert ([rows[0]] + rest)[1..] == rest;
        }
      }
    }
  }

  /** The loaded news table, which the page changes in place. */
  class NewsFrame {
    var rows: seq<Article>

    constructor (loaded: seq<Article>)
      ensures rows == loaded
    {
      rows := loaded;
    }

    /** The date column of the loaded table rewritten in place. */
    method ReformatDates(fmt: int -> string)
      modifies this
      ensures rows == Reformatted(old(rows), fmt)
    {
      rows := Reformatted(rows, fmt);
    }
  }

  /**
   * The page: search, then rewrite the dates of the loaded table, and show
   * the filtered table. Without a term the filtered table is the loaded
   * one and carries the rewrite; with a term it is a new table of the
   * matching articles as they were before the rewrite.
   */
  method NewsPage(news: NewsFrame, column: NewsColumn, term: string, fmt: int -> string) returns (shown: NewsFrame)
    modifies news
    ensures news.rows == Reformatted(old(news.rows), fmt)
    ensures term == "" ==> shown == news && shown.rows == Reformatted(old(news.rows), fmt)
    ensures term != "" ==> fresh(shown) && shown.rows == SearchNews(old(news.rows), column, term)
  {
    if term != "" {
      shown := new NewsFrame(SearchNews(news.rows, column, term));
    } else {
      shown := news;
    }
    news.ReformatDates(fmt);
  }
}
