/** The configuration tree the plugin hands to other Maven plugins through
    MojoExecutor: an element is either a named text value or a named list of
    child elements. */
module Elements {

  datatype Element =
    | Text(name: string, text: string)
    | Node(name: string, children: seq<Element>)

  /** `element(name("argument"), value)`, one command-line argument. */
  function Argument(value: string): Element {
    Text("argument", value)
  }

  /** The element holds one command-line argument. */
  predicate IsArgument(e: Element) {
    e.Text? && e.name == "argument"
  }
}
