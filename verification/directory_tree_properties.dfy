/** What the directory-tree rendering promises, proved against the flat listing of `Entries`. */
module DirectoryTreeProperties {
  import opened DirectoryTree

  lemma {:induction false} FormatAppend(a: seq<Entry>, b: seq<Entry>, files: map<string, string>, addDescriptions: bool)
    ensures Format(a + b, files, addDescriptions) == Format(a, files, addDescriptions) + Format(b, files, addDescriptions)
    decreases |a|
  {
    if a == [] {
      assert a + b == b;
    } else {
      assert (a + b)[1..] == a[1..] + b;
      FormatAppend(a[1..], b, files, addDescriptions);
    }
  }

  /**
   * The recursive rendering is the flat pre-order listing drawn line by line:
   * a directory's line comes first, then its children's output in listing order.
   */
  lemma {:induction false} RenderIsFormattedEntries(node: Node, prefix: string, ignore: seq<string>, isLast: bool,
                                                   files: map<string, string>, addDescriptions: bool)
    ensures Render(node, prefix, ignore, isLast, files, addDescriptions)
         == Format(Entries(node, prefix, ignore, isLast), files, addDescriptions)
    decreases node, 1
  {
    if node.name !in ignore {
      var own := Entry(prefix, node.name, node.Directory?);
      assert Format([own], files, addDescriptions) == Line(prefix, node.name, node.Directory?, files, addDescriptions);
      if node.Directory? {
        var childPrefix := prefix + Indent(isLast);
        ChildrenAreFormattedEntries(node.children, 0, childPrefix, ignore, files, addDescriptions);
        FormatAppend([own], ChildEntries(node.children, 0, childPrefix, ignore), files, addDescriptions);
      }
    }
  }

  lemma {:induction false} ChildrenAreFormattedEntries(children: seq<Node>, index: nat, prefix: string, ignore: seq<string>,
                                                      files: map<string, string>, addDescriptions: bool)
    requires index <= |children|
    ensures RenderChildren(children, index, prefix, ignore, files, addDescriptions)
         == Format(ChildEntries(children, index, prefix, ignore), files, addDescriptions)
    decreases children, 0, |children| - index
  {
    if index < |children| {
      var last := index == |children| - 1;
      RenderIsFormattedEntries(children[index], prefix, ignore, last, files, addDescriptions);
      ChildrenAreFormattedEntries(children, index + 1, prefix, ignore, files, addDescriptions);
      FormatAppend(Entries(children[index], prefix, ignore, last), ChildEntries(children, index + 1, prefix, ignore),
                   files, addDescriptions);
    }
  }

  /** No listed node has an ignored name, and nothing below an ignored directory is listed. */
  lemma {:induction false} EntriesAvoidIgnored(node: Node, prefix: string, ignore: seq<string>, isLast: bool)
    ensures forall e :: e in Entries(node, prefix, ignore, isLast) ==> e.name !in ignore
    ensures node.name in ignore ==> Entries(node, prefix, ignore, isLast) == []
    decreases node, 1
  {
    if node.name !in ignore && node.Directory? {
      ChildEntriesAvoidIgnored(node.children, 0, prefix + Indent(isLast), ignore);
    }
  }

  lemma {:induction false} ChildEntriesAvoidIgnored(children: seq<Node>, index: nat, prefix: string, ignore: seq<string>)
    requires index <= |children|
    ensures forall e :: e in ChildEntries(children, index, prefix, ignore) ==> e.name !in ignore
    decreases children, 0, |children| - index
  {
    if index < |children| {
      EntriesAvoidIgnored(children[index], prefix, ignore, index == |children| - 1);
      ChildEntriesAvoidIgnored(children, index + 1, prefix, ignore);
    }
  }

  /**
   * Every line below a node starts with that node's prefix; every line below
   * a directory starts with the prefix extended by the directory's own indent.
   */
  lemma {:induction false} EntriesExtendPrefix(node: Node, prefix: string, ignore: seq<string>, isLast: bool)
    ensures var es := Entries(node, prefix, ignore, isLast);
      && (forall e :: e in es ==> prefix <= e.prefix)
      && (forall i :: 1 <= i < |es| ==> prefix + Indent(isLast) <= es[i].prefix)
    decreases node, 1
  {
    var es := Entries(node, prefix, ignore, isLast);
    if node.name !in ignore && node.Directory? {
      var childPrefix := prefix + Indent(isLast);
      var below := ChildEntries(node.children, 0, childPrefix, ignore);
      ChildEntriesExtendPrefix(node.children, 0, childPrefix, ignore);
      assert es == [es[0]] + below;
      forall i | 1 <= i < |es|
        ensures childPrefix <= es[i].prefix
      {
        assert es[i] == below[i - 1];
        assert below[i - 1] in below;
      }
    }
  }

  lemma {:induction false} ChildEntriesExtendPrefix(children: seq<Node>, index: nat, prefix: string, ignore: seq<string>)
    requires index <= |children|
    ensures forall e :: e in ChildEntries(children, index, prefix, ignore) ==> prefix <= e.prefix
    decreases children, 0, |children| - index
  {
    if index < |children| {
      EntriesExtendPrefix(children[index], prefix, ignore, index == |children| - 1);
      ChildEntriesExtendPrefix(children, index + 1, prefix, ignore);
    }
  }

  /** With nothing ignored every node of the tree is listed: one line per node. */
  lemma {:induction false} EntriesListEveryNode(node: Node, prefix: string, isLast: bool)
    ensures |Entries(node, prefix, [], isLast)| == Size(node)
    decreases node, 1
  {
    if node.Directory? {
      ChildEntriesListEveryNode(node.children, 0, prefix + Indent(isLast));
    }
  }

  lemma {:induction false} ChildEntriesListEveryNode(children: seq<Node>, index: nat, prefix: string)
    requires index <= |children|
    ensures |ChildEntries(children, index, prefix, [])| == ChildrenSize(children, index)
    decreases children, 0, |children| - index
  {
    if index < |children| {
      EntriesListEveryNode(children[index], prefix, index == |children| - 1);
      ChildEntriesListEveryNode(children, index + 1, prefix);
    }
  }

  /**
   * The `enumerate` loop draws child `index` with `is_last` set exactly when it
   * is the final item: the loop's output from `index` on opens with that
   * child's entries under that flag, and so the descendants of a directory
   * child receive the blank indent when it is final and `|   ` otherwise.
   */
  lemma ChildIsLastOnlyAtEnd(children: seq<Node>, index: nat, prefix: string, ignore: seq<string>)
    requires index < |children|
    ensures var own := Entries(children[index], prefix, ignore, index == |children| - 1);
      own <= ChildEntries(children, index, prefix, ignore)
    ensures var own := Entries(children[index], prefix, ignore, index == |children| - 1);
      children[index].Directory? && children[index].name !in ignore ==>
        forall e :: e in own[1..] ==> prefix + (if index == |children| - 1 then "    " else "|   ") <= e.prefix
  {
    var last := index == |children| - 1;
    var es := Entries(children[index], prefix, ignore, last);
    if children[index].Directory? && children[index].name !in ignore {
      EntriesExtendPrefix(children[index], prefix, ignore, last);
      forall e | e in es[1..]
        ensures prefix + Indent(last) <= e.prefix
      {
        var i :| 0 <= i < |es[1..]| && es[1..][i] == e;
        assert es[i + 1] == e;
      }
    }
  }
}
