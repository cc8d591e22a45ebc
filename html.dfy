/** The parsed page the scrapers read. A page is a tree of elements; what a CSS selector
  * picks out of an element is recorded with it, so `select` and `select_one` are lookups. */
module Html {
  import opened Wrappers
  import opened Text
  import Ladders

  /** One element: tag name, attributes, `get_text()`, and for each selector the
    * elements `select(selector)` returns, in document order. */
  datatype Elem = Elem(name: string, attrs: map<string, string>, text: string,
                       inner: map<string, seq<Elem>>)

  /** What the network returns: the parsed page for each URL that answers with status 200. */
  type Web = map<string, Elem>

  /** `requests.get(url)` followed by parsing; `None` when the request fails. */
  function Fetch(web: Web, url: string): Option<Elem>
  {
    if url in web then Some(web[url]) else None
  }

  /** `e.select(selector)` (also used for `find_all` of a tag list). */
  function Select(e: Elem, selector: string): seq<Elem>
  {
    if selector in e.inner then e.inner[selector] else []
  }

  /** `e.select_one(selector)` */
  function SelectOne(e: Elem, selector: string): Option<Elem>
  {
    var es := Select(e, selector);
    if es == [] then None else Some(es[0])
  }

  /** `e.get(attr)` */
  function Get(e: Elem, attr: string): Option<string>
  {
    if attr in e.attrs then Some(e.attrs[attr]) else None
  }

  /** `e.get(attr, default)` */
  function GetOr(e: Elem, attr: string, default: string): string
  {
    Get(e, attr).GetOr(default)
  }

  /** Python truthiness of an optional attribute value. */
  predicate Truthy(v: Option<string>)
  {
    v.Some? && v.value != ""
  }

  /** `e.get("data-src") or e.get("data-lazy-src") or e.get("src", "")` */
  function LazySrc(e: Elem): string
  {
    if Truthy(Get(e, "data-src")) then Get(e, "data-src").value
    else if Truthy(Get(e, "data-lazy-src")) then Get(e, "data-lazy-src").value
    else GetOr(e, "src", "")
  }

  /** `e.get("class", [])`: the class attribute as a list of class names. */
  function Classes(e: Elem): seq<string>
  {
    Words(GetOr(e, "class", ""))
  }

  function SelectOnePick(doc: Elem): string -> Option<Elem>
  {
    selector => SelectOne(doc, selector)
  }

  /** `doc.select_one(s1) or doc.select_one(s2) or ...` */
  function FirstPresent(doc: Elem, selectors: seq<string>): Option<Elem>
  {
    Ladders.FirstSomeOf(selectors, SelectOnePick(doc))
  }
}
