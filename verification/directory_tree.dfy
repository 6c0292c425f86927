/**
 * `build_directory_tree` over an in-memory tree instead of the file system:
 * a node is a file or a directory, with its base name and, for a directory,
 * its listing in the order the file system returns it.
 */
module DirectoryTree {

  datatype Node =
    | File(name: string)
    | Directory(name: string, children: seq<Node>)

  /** The indentation the children of a node receive: taken from the node's own `is_last`. */
  function Indent(isLast: bool): (r: string)
    ensures |r| == 4
    ensures r == "    " <==> isLast
  {
    if isLast then "    " else "|   "
  }

  /**
   * The optional description of a line. `files` maps a base name to its
   * description; the source's `if files` test is implied by `name in files`.
   */
  function Description(name: string, files: map<string, string>, addDescriptions: bool): (r: string)
    ensures r != "" ==> addDescriptions && name in files
    ensures addDescriptions && name in files ==> r == " - " + files[name] + " "
  {
    if |files| > 0 && name in files && addDescriptions then " - " + files[name] + " " else ""
  }

  /** One line of the tree: prefix, branch, name, optional description, and `/` for a directory. */
  function Line(prefix: string, name: string, isDirectory: bool, files: map<string, string>, addDescriptions: bool): (r: string)
    ensures prefix + "|-- " + name <= r
    ensures r[|r| - 1] == '\n'
    ensures isDirectory ==> r[|r| - 2..] == "/\n"
  {
    prefix + "|-- " + name + Description(name, files, addDescriptions) + (if isDirectory then "/\n" else "\n")
  }

  /** `build_directory_tree(path, prefix, ignore, is_last, files, add_descriptions)`. */
  function Render(node: Node, prefix: string, ignore: seq<string>, isLast: bool,
                  files: map<string, string>, addDescriptions: bool): (r: string)
    ensures node.name in ignore ==> r == ""
    ensures node.name !in ignore ==> Line(prefix, node.name, node.Directory?, files, addDescriptions) <= r
    ensures node.File? && node.name !in ignore ==> r == Line(prefix, node.name, false, files, addDescriptions)
    decreases node, 1
  {
    if node.name in ignore then ""
    else match node
      case File(name) => Line(prefix, name, false, files, addDescriptions)
      case Directory(name, children) =>
        Line(prefix, name, true, files, addDescriptions)
        + RenderChildren(children, 0, prefix + Indent(isLast), ignore, files, addDescriptions)
  }

  /**
   * The `for index, item in enumerate(items)` loop from `index` on: each
   * child is rendered with the parent's indented prefix, and only the final
   * one with `is_last` set.
   */
  function RenderChildren(children: seq<Node>, index: nat, prefix: string, ignore: seq<string>,
                          files: map<string, string>, addDescriptions: bool): (r: string)
    requires index <= |children|
    ensures (forall k :: index <= k < |children| ==> children[k].name in ignore) ==> r == ""
    ensures r != "" ==> prefix + "|-- " <= r
    ensures (exists k :: index <= k < |children| && children[k].name !in ignore) ==> r != ""
    decreases children, 0, |children| - index
  {
    if index == |children| then ""
    else
      Render(children[index], prefix, ignore, index == |children| - 1, files, addDescriptions)
      + RenderChildren(children, index + 1, prefix, ignore, files, addDescriptions)
  }

  // ------------------------------------------------------------ flat reference

  /** One listed node: the prefix it is drawn with, its name, and whether it is a directory. */
  datatype Entry = Entry(prefix: string, name: string, isDirectory: bool)

  /** The nodes the tree lists, in pre-order, each with the prefix it receives. */
  function Entries(node: Node, prefix: string, ignore: seq<string>, isLast: bool): (r: seq<Entry>)
    decreases node, 1
  {
    if node.name in ignore then []
    else match node
      case File(name) => [Entry(prefix, name, false)]
      case Directory(name, children) =>
        [Entry(prefix, name, true)] + ChildEntries(children, 0, prefix + Indent(isLast), ignore)
  }

  function ChildEntries(children: seq<Node>, index: nat, prefix: string, ignore: seq<string>): (r: seq<Entry>)
    requires index <= |children|
    decreases children, 0, |children| - index
  {
    if index == |children| then []
    else Entries(children[index], prefix, ignore, index == |children| - 1) + ChildEntries(children, index + 1, prefix, ignore)
  }

  /** Each entry drawn as one line, in order. */
  function Format(entries: seq<Entry>, files: map<string, string>, addDescriptions: bool): (r: string)
    decreases |entries|
  {
    if entries == [] then ""
    else Line(entries[0].prefix, entries[0].name, entries[0].isDirectory, files, addDescriptions)
         + Format(entries[1..], files, addDescriptions)
  }

  /** The number of nodes in a tree. */
  function Size(node: Node): (r: nat)
    decreases node, 1
  {
    match node
    case File(_) => 1
    case Directory(_, children) => 1 + ChildrenSize(children, 0)
  }

  function ChildrenSize(children: seq<Node>, index: nat): (r: nat)
    requires index <= |children|
    decreases children, 0, |children| - index
  {
    if index == |children| then 0 else Size(children[index]) + ChildrenSize(children, index + 1)
  }
}
