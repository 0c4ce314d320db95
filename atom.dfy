/**
 * The parts of an Atom feed (as the `atom_syndication` library represents
 * it) that the gateway reads: entries with their namespaced extension
 * elements, links and authors. Dates are seconds since the Unix epoch.
 */
module Atom {
  import opened Wrappers

  /**
   * An extension element such as `<media:group>`: its text value, its
   * attributes, and its child elements grouped by name.
   */
  datatype Extension = Extension(
    name: string,
    value: Option<string>,
    attrs: map<string, string>,
    children: map<string, seq<Extension>>)

  datatype Person = Person(name: string)

  datatype Link = Link(href: string)

  /** Extensions by namespace prefix, then by element name. */
  type ExtensionMap = map<string, map<string, seq<Extension>>>

  datatype Entry = Entry(
    id: string,
    title: string,
    updated: int,
    authors: seq<Person>,
    links: seq<Link>,
    extensions: ExtensionMap)

  datatype Feed = Feed(
    title: string,
    updated: int,
    subtitle: Option<string>,
    lang: Option<string>,
    authors: seq<Person>,
    links: seq<Link>,
    entries: seq<Entry>)

  /** The names of `people`, in order. */
  function Names(people: seq<Person>): (r: seq<string>)
    ensures |r| == |people|
    ensures forall k :: 0 <= k < |people| ==> r[k] == people[k].name
  {
    seq(|people|, k requires 0 <= k < |people| => people[k].name)
  }

  /** The first author's name, or the empty text for an entry without authors. */
  function FirstAuthor(people: seq<Person>): (r: string)
    ensures people == [] ==> r == ""
    ensures people != [] ==> r == people[0].name
  {
    if people == [] then "" else people[0].name
  }
}
