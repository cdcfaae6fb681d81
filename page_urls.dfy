/**
 * The page-by-template URL lists both fetchers build: for each page number
 * from 1 up, every template in order, with the page number put in the
 * template's single `{}` (`template.format(page)`).
 */
module PageUrls {
  import opened Text

  /** A URL template holding one `{}`: the text before it and the text after it. */
  datatype UrlTemplate = UrlTemplate(before: string, after: string)

  /** `template.format(page)`. */
  function Format(t: UrlTemplate, page: int): string {
    t.before + IntToString(page) + t.after
  }

  /** The URLs of one page, one per template, in template order. */
  function PageRow(page: int, templates: seq<UrlTemplate>): (row: seq<string>)
    ensures |row| == |templates|
    ensures forall j :: 0 <= j < |templates| ==> row[j] == Format(templates[j], page)
  {
    seq(|templates|, j requires 0 <= j < |templates| => Format(templates[j], page))
  }

  /** The URLs for pages 1 to `pages`, page after page; none when `pages` is below 1. */
  function Expansion(pages: int, templates: seq<UrlTemplate>): seq<string>
    decreases if pages < 0 then 0 else pages
  {
    if pages <= 0 then [] else Expansion(pages - 1, templates) + PageRow(pages, templates)
  }

  /** The list has `pages * len(templates)` entries. */
  lemma {:induction false} ExpansionLength(pages: nat, templates: seq<UrlTemplate>)
    ensures |Expansion(pages, templates)| == pages * |templates|
    decreases pages
  {
    if pages > 0 {
      ExpansionLength(pages - 1, templates);
      assert pages * |templates| == (pages - 1) * |templates| + |templates|;
    }
  }

  /** The entry for page `p` and template `j` sits at `(p - 1) * len(templates) + j`. */
  lemma {:induction false} ExpansionAt(pages: nat, templates: seq<UrlTemplate>, p: nat, j: nat)
    requires 1 <= p <= pages && j < |templates|
    ensures (p - 1) * |templates| + j < |Expansion(pages, templates)|
    ensures Expansion(pages, templates)[(p - 1) * |templates| + j] == Format(templates[j], p)
    decreases pages
  {
    var n := |templates|;
    var prior := Expansion(pages - 1, templates);
    ExpansionLength(pages - 1, templates);
    assert Expansion(pages, templates) == prior + PageRow(pages, templates);
    if p < pages {
      ExpansionAt(pages - 1, templates, p, j);
    } else {
      assert (p - 1) * n + j == |prior| + j;
    }
  }

  /** The list is page-major: every (page, template) pair at its slot, and nothing else. */
  lemma ExpansionLayout(pages: nat, templates: seq<UrlTemplate>)
    ensures |Expansion(pages, templates)| == pages * |templates|
    ensures forall p, j :: 1 <= p <= pages && 0 <= j < |templates| ==>
      (p - 1) * |templates| + j < |Expansion(pages, templates)|
      && Expansion(pages, templates)[(p - 1) * |templates| + j] == Format(templates[j], p)
  {
    ExpansionLength(pages, templates);
    forall p, j | 1 <= p <= pages && 0 <= j < |templates|
      ensures (p - 1) * |templates| + j < |Expansion(pages, templates)|
      && Expansion(pages, templates)[(p - 1) * |templates| + j] == Format(templates[j], p)
    {
      ExpansionAt(pages, templates, p, j);
    }
  }

  /** The nested `for page ...: for template ...: urls.append(...)` loops. */
  method Expand(pages: int, templates: seq<UrlTemplate>) returns (urls: seq<string>)
    ensures urls == Expansion(pages, templates)
  {
    urls := [];
    var page := 1;
    while page <= pages
      invariant 1 <= page <= (if pages >= 1 then pages + 1 else 1)
      invariant urls == Expansion(page - 1, templates)
    {
      urls := AppendRow(urls, page, templates);
      page := page + 1;
    }
  }

  /** The inner loop: one URL per template appended for `page`. */
  method AppendRow(urls: seq<string>, page: int, templates: seq<UrlTemplate>) returns (r: seq<string>)
    ensures r == urls + PageRow(page, templates)
  {
    ghost var row := PageRow(page, templates);
    r := urls;
    var k := 0;
    while k < |templates|
      invariant 0 <= k <= |templates|
      invariant r == urls + row[..k]
    {
      var url := Format(templates[k], page);
      assert row[..k + 1] == row[..k] + [url];
      r := r + [url];
      k := k + 1;
    }
    assert row[..k] == row;
  }

  /** The two kuaidaili listing templates, shared by both fetchers. */
  const KuaidailiTemplates: seq<UrlTemplate> := [
    UrlTemplate("https://www.kuaidaili.com/free/inha/", "/"),
    UrlTemplate("https://www.kuaidaili.com/free/intr/", "/")
  ]
}
