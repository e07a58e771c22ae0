/**
 * The collaborators the cloner consults but does not implement: the URL Standard's parser
 * behind `new URL(ref, base)`, and the HTML parser and serialiser behind `cheerio.load`
 * and `$.html()`.
 */
module Web {
  import opened Wrappers

  /** The two parts of a parsed URL the cloner reads. */
  datatype Url = Url(href: string, pathname: string)

  /**
   * `new URL(ref, base)`: `None` where the constructor throws. An absent base is
   * `new URL(ref, undefined)`, which succeeds only for an absolute `ref`.
   */
  type Resolver = (string, Option<string>) -> Option<Url>

  /** An element of a parsed document: its tag name and its attributes. */
  datatype Element = Element(tag: string, attrs: map<string, string>) {

    /** `$(el).attr(name)` */
    function Attr(name: string): Option<string> {
      if name in attrs then Some(attrs[name]) else None
    }

    /** `$(el).attr(name, value)` */
    function SetAttr(name: string, value: string): Element {
      Element(tag, attrs[name := value])
    }
  }

  /** `cheerio.load(html)` and `$.html()`: a document as its elements in document order. */
  datatype HtmlCodec = HtmlCodec(parse: string -> seq<Element>, serialize: seq<Element> -> string)
}
