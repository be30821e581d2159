/** The `apilink` macro of the documentation build (`main.py`): a Markdown
    link to the API reference of an object of the package. */
module Docs {
  import opened Text

  /** The link target: the reference page itself, the page of the module
      for a `module.name` object, the main page's anchor otherwise. */
  function ApiUrl(base: string, obj: string): (url: string)
    ensures obj == "" ==> url == base
    ensures obj != "" && Count(obj, '.') == 1 ==> url == base + Before(obj, '.') + ".html#stlog." + obj
    ensures obj != "" && Count(obj, '.') != 1 ==> url == base + "#stlog." + obj
  {
    if obj == "" then base
    else
      var parts := Split(obj, '.');
      SplitShape(obj, '.');
      if |parts| == 2 then base + parts[0] + ".html#stlog." + obj
      else base + "#stlog." + obj
  }

  /** The link text: the given title, else the object in backquotes, else
      `API reference`. */
  function ApiTitle(obj: string, title: string): (t: string)
    ensures title != "" ==> t == title
    ensures title == "" && obj != "" ==> t == "`" + obj + "`"
    ensures title == "" && obj == "" ==> t == "API reference"
  {
    if title != "" then title
    else if obj != "" then "`" + obj + "`"
    else "API reference"
  }

  /** `apilink(obj, title)`; `base` is the `_apilink` variable of the site. */
  function ApiLink(base: string, obj: string, title: string): string {
    "[" + ApiTitle(obj, title) + "](" + ApiUrl(base, obj) + ")"
  }

  lemma {:induction false} BeforeAppend(t: string, c: char, rest: string)
    requires c !in t
    ensures Before(t + [c] + rest, c) == t
  {
    if t != [] {
      assert (t + [c] + rest)[1..] == t[1..] + [c] + rest;
      BeforeAppend(t[1..], c, rest);
    } else {
      assert t + [c] + rest == [c] + rest;
    }
  }

  /** A reader of the Markdown link gets the title and the target back,
      provided the title holds no `]`. */
  lemma ApiLinkParts(base: string, obj: string, title: string)
    requires ']' !in ApiTitle(obj, title)
    ensures var r := ApiLink(base, obj, title);
            var t := ApiTitle(obj, title);
            && r[0] == '['
            && Before(r[1..], ']') == t
            && r[|t| + 1..|t| + 3] == "]("
            && r[|t| + 3..|r| - 1] == ApiUrl(base, obj)
            && r[|r| - 1] == ')'
  {
    var r := ApiLink(base, obj, title);
    var t := ApiTitle(obj, title);
    var url := ApiUrl(base, obj);
    assert r[1..] == t + [']'] + ("(" + url + ")");
    BeforeAppend(t, ']', "(" + url + ")");
  }
}
