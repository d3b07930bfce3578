/** The list of search results behind the results tree view
    (`JSPSResultsProvider` and the commands around it in src/commands/results.ts):
    results are appended, cleared and dismissed in place, and the tree asks for
    the children of a node.

    A result's line matches are a map from 0-based line index to line text, as
    the tree view reads them; `delete` removes one entry of that map in place. */
module Results {
  import opened Js

  /** One file's result as the tree shows it. */
  class SearchResult {
    const file: string
    const fileName: string
    const filePath: string
    var matchesByLine: Option<map<nat, string>>

    constructor(file: string, fileName: string, filePath: string, matchesByLine: Option<map<nat, string>>)
      ensures this.file == file && this.fileName == fileName && this.filePath == filePath
      ensures this.matchesByLine == matchesByLine
    {
      this.file := file;
      this.fileName := fileName;
      this.filePath := filePath;
      this.matchesByLine := matchesByLine;
    }
  }

  datatype NodeKind = FileKind | LineKind

  /** A tree item (`JSPSResult`): what it shows and which result it belongs to. */
  datatype ResultNode = ResultNode(
    kind: NodeKind,
    searchResult: SearchResult,
    caption: string,
    tooltip: string,
    collapsible: bool,
    lineNumber: nat)

  /** The root item of a result: its file name, its path as tooltip, and collapsible
      exactly when it has at least one line match. */
  function FileNode(r: SearchResult): (node: ResultNode)
    reads r
    ensures node.kind == FileKind && node.searchResult == r
    ensures node.caption == r.fileName && node.tooltip == r.filePath
    ensures node.collapsible <==> r.matchesByLine.Some? && exists k :: k in r.matchesByLine.value
  {
    ResultNode(FileKind, r, r.fileName, r.filePath,
               r.matchesByLine.Some? && |r.matchesByLine.value| > 0, 0)
  }

  /** The item for line index `k`: labelled with the 1-based line number and the text. */
  function LineNode(r: SearchResult, k: nat, text: string): (node: ResultNode)
    ensures node.kind == LineKind && node.searchResult == r && !node.collapsible
    ensures node.lineNumber == k && node.tooltip == text
    ensures node.caption == IntToString(k + 1) + ": " + text
    // the caption is the 1-based line number, a colon, a space and the text
    ensures |node.caption| >= |text| + 3
    ensures node.caption[|node.caption| - |text| - 2..] == ": " + text
    ensures ParseNumber(node.caption[..|node.caption| - |text| - 2]) == Some(k + 1)
  {
    var number := IntToString(k + 1);
    ParseIntToString(k + 1);
    CaptionParts(number, text);
    ResultNode(LineKind, r, number + ": " + text, text, false, k)
  }

  /** A caption `number: text` splits back into its number and its text. */
  lemma CaptionParts(number: string, text: string)
    requires |number| >= 1
    ensures var c := number + ": " + text;
      |c| >= |text| + 3 && c[|c| - |text| - 2..] == ": " + text && c[..|c| - |text| - 2] == number
  {
    var c := number + ": " + text;
    assert c[..|number|] == number;
    assert c[|number|..] == ": " + text;
  }

  /** A file node whose result has a line map (possibly empty). */
  predicate HasLineMap(node: ResultNode)
    reads node.searchResult
  {
    node.kind == FileKind && node.searchResult.matchesByLine.Some?
  }

  /** `children` lists every entry of `m`, once each, by ascending line index. */
  predicate ListsLines(r: SearchResult, m: map<nat, string>, children: seq<ResultNode>) {
    (forall i :: 0 <= i < |children| ==>
      children[i].lineNumber in m &&
      children[i] == LineNode(r, children[i].lineNumber, m[children[i].lineNumber])) &&
    (forall i, j :: 0 <= i < j < |children| ==> children[i].lineNumber < children[j].lineNumber) &&
    (forall k :: k in m ==> exists i :: 0 <= i < |children| && children[i].lineNumber == k)
  }

  /** Every non-empty set of line indices has a least element, which `for ... in`
      visits first. */
  lemma MinExists(s: set<nat>)
    requires s != {}
    ensures exists k :: k in s && forall j :: j in s ==> k <= j
  {
    var x :| x in s;
    MinBelow(s, x);
  }

  lemma {:induction false} MinBelow(s: set<nat>, n: nat)
    requires n in s
    ensures exists k :: k in s && forall j :: j in s ==> k <= j
    decreases n
  {
    if exists j :: j in s && j < n {
      var j :| j in s && j < n;
      MinBelow(s, j);
    }
  }

  /** `results.indexOf(x)`: the first position holding `x` (by identity), or -1. */
  function FirstIndex<T(==)>(s: seq<T>, x: T): (i: int)
    ensures -1 <= i < |s|
    ensures i == -1 <==> x !in s
    ensures i >= 0 ==> s[i] == x && x !in s[..i]
  {
    if |s| == 0 then -1
    else if s[0] == x then 0
    else
      var i := FirstIndex(s[1..], x);
      assert s[1..][..if i < 0 then 0 else i] == s[1..if i < 0 then 1 else i + 1];
      if i < 0 then -1 else i + 1
  }

  /** Dismissing a result from a list: `splice` at its first position, or nothing
      when it is absent. */
  function RemoveFirst<T(==)>(s: seq<T>, x: T): (r: seq<T>)
    ensures x !in s ==> r == s
    ensures x in s ==> |r| == |s| - 1 && multiset(r) == multiset(s) - multiset{x}
    ensures x in s ==> exists i :: 0 <= i < |s| && s[i] == x && x !in s[..i] && r == s[..i] + s[i + 1..]
  {
    var i := FirstIndex(s, x);
    if i < 0 then s
    else
      assert s == s[..i] + [s[i]] + s[i + 1..];
      s[..i] + s[i + 1..]
  }

  /** Showing a new result and then dismissing it gives back the list. */
  lemma DismissUndoesShow<T>(s: seq<T>, x: T)
    requires x !in s
    ensures RemoveFirst(s + [x], x) == s
  {
    var t := s + [x];
    assert t[|s|] == x && t[..|s|] == s;
    IndexOfLast(s, x);
  }

  lemma IndexOfLast<T>(s: seq<T>, x: T)
    requires x !in s
    ensures FirstIndex(s + [x], x) == |s|
  {
    var t := s + [x];
    assert t[..|s|] == s;
  }

  /** `delete lines[k]` on a result's line map, skipped when there is no map or
      no entry for `k`. */
  function DeleteLine(lines: Option<map<nat, string>>, k: nat): (r: Option<map<nat, string>>)
    ensures r.Some? <==> lines.Some?
    ensures r.Some? ==> r.value.Keys == lines.value.Keys - {k}
    ensures r.Some? ==> forall j :: j in r.value ==> r.value[j] == lines.value[j]
  {
    match lines
    case None => None
    case Some(m) => if k in m then Some(m - {k}) else lines
  }

  /** Dismissing the same line twice is the same as dismissing it once. */
  lemma DeleteLineIdempotent(lines: Option<map<nat, string>>, k: nat)
    ensures DeleteLine(DeleteLine(lines, k), k) == DeleteLine(lines, k)
  {
  }

  /** Dismissing two lines gives the same map in either order. */
  lemma DeleteLineCommutes(lines: Option<map<nat, string>>, j: nat, k: nat)
    ensures DeleteLine(DeleteLine(lines, j), k) == DeleteLine(DeleteLine(lines, k), j)
  {
    if lines.Some? {
      var a, b := DeleteLine(DeleteLine(lines, j), k), DeleteLine(DeleteLine(lines, k), j);
      assert a.value.Keys == b.value.Keys;
      assert forall i :: i in a.value ==> a.value[i] == lines.value[i] == b.value[i];
      assert a.value == b.value;
    }
  }

  /** `JSPSResultsProvider` with its `results` list. */
  class ResultsProvider {
    var results: seq<SearchResult>

    constructor()
      ensures results == []
    {
      results := [];
    }

    /** `initializeResultsView`: the list is emptied. */
    method InitializeResultsView()
      modifies this
      ensures results == []
    {
      results := [];
    }

    /** `showResult`: the result is appended. */
    method ShowResult(r: SearchResult)
      modifies this
      ensures results == old(results) + [r]
    {
      results := results + [r];
    }

    /** The `dismissResult` command: a file node leaves the list; a line node
        loses its entry in its result's line map. */
    method DismissResult(node: ResultNode)
      modifies this, node.searchResult
      ensures node.kind == FileKind ==>
        results == RemoveFirst(old(results), node.searchResult) &&
        node.searchResult.matchesByLine == old(node.searchResult.matchesByLine)
      ensures node.kind == LineKind ==>
        results == old(results) &&
        node.searchResult.matchesByLine == DeleteLine(old(node.searchResult.matchesByLine), node.lineNumber)
    {
      if node.kind == FileKind {
        var ix := FirstIndex(results, node.searchResult);
        if ix < 0 {
          return;
        }
        results := results[..ix] + results[ix + 1..];
      } else {
        var lines := node.searchResult.matchesByLine;
        if lines.None? {
          return;
        }
        if node.lineNumber !in lines.value {
          return;
        }
        node.searchResult.matchesByLine := Some(lines.value - {node.lineNumber});
      }
    }

    /** `getChildren`: the roots are one file node per result, in list order; a
        file node with a line map has one line node per entry, by ascending line
        index; anything else has no children. */
    method GetChildren(element: Option<ResultNode>) returns (children: seq<ResultNode>)
      ensures element.None? ==>
        |children| == |results| &&
        forall i :: 0 <= i < |children| ==> children[i] == FileNode(results[i])
      ensures element.Some? && !HasLineMap(element.value) ==> children == []
      ensures element.Some? && HasLineMap(element.value) ==>
        var m := element.value.searchResult.matchesByLine.value;
        ListsLines(element.value.searchResult, m, children) && |children| == |m|
    {
      if element.None? {
        children := [];
        for i := 0 to |results|
          invariant |children| == i
          invariant forall j :: 0 <= j < i ==> children[j] == FileNode(results[j])
        {
          children := children + [FileNode(results[i])];
        }
        return;
      }
      var node := element.value;
      if !HasLineMap(node) {
        return [];
      }
      children := LineChildren(node.searchResult, node.searchResult.matchesByLine.value);
    }
  }

  /** Part way through the `for ... in` loop: the entries listed so far are the
      keys not yet remaining, in ascending order, all below the remaining ones. */
  predicate ListedSoFar(r: SearchResult, m: map<nat, string>, children: seq<ResultNode>, remaining: set<nat>) {
    remaining <= m.Keys &&
    (forall i :: 0 <= i < |children| ==>
      children[i].lineNumber in m && children[i].lineNumber !in remaining &&
      children[i] == LineNode(r, children[i].lineNumber, m[children[i].lineNumber])) &&
    (forall i, j :: 0 <= i < j < |children| ==> children[i].lineNumber < children[j].lineNumber) &&
    (forall i, k :: 0 <= i < |children| && k in remaining ==> children[i].lineNumber < k) &&
    (forall k :: k in m && k !in remaining ==>
      exists i :: 0 <= i < |children| && children[i].lineNumber == k) &&
    |children| + |remaining| == |m|
  }

  /** Listing the least remaining key keeps the loop's invariant. */
  lemma ListNext(r: SearchResult, m: map<nat, string>, children: seq<ResultNode>, remaining: set<nat>, k: nat)
    requires ListedSoFar(r, m, children, remaining)
    requires k in remaining && forall j :: j in remaining ==> k <= j
    ensures k in m && ListedSoFar(r, m, children + [LineNode(r, k, m[k])], remaining - {k})
  {
    var next := children + [LineNode(r, k, m[k])];
    ListNextOrder(r, m, children, remaining, k);
    ListNextCovers(r, m, children, remaining, k);
    assert |next| + |remaining - {k}| == |m|;
  }

  /** After listing `k`, the listed entries are still ascending, below the
      remaining keys and drawn from the map. */
  lemma ListNextOrder(r: SearchResult, m: map<nat, string>, children: seq<ResultNode>, remaining: set<nat>, k: nat)
    requires ListedSoFar(r, m, children, remaining)
    requires k in remaining && forall j :: j in remaining ==> k <= j
    ensures k in m
    ensures var next := children + [LineNode(r, k, m[k])];
      (forall i :: 0 <= i < |next| ==>
        next[i].lineNumber in m && next[i].lineNumber !in remaining - {k} &&
        next[i] == LineNode(r, next[i].lineNumber, m[next[i].lineNumber])) &&
      (forall i, j :: 0 <= i < j < |next| ==> next[i].lineNumber < next[j].lineNumber) &&
      (forall i, j :: 0 <= i < |next| && j in remaining - {k} ==> next[i].lineNumber < j)
  {
    var next := children + [LineNode(r, k, m[k])];
    assert next[|children|].lineNumber == k;
    assert forall i :: 0 <= i < |children| ==> next[i] == children[i];
  }

  /** After listing `k`, every key no longer remaining has been listed. */
  lemma ListNextCovers(r: SearchResult, m: map<nat, string>, children: seq<ResultNode>, remaining: set<nat>, k: nat)
    requires k in m
    requires forall k' :: k' in m && k' !in remaining ==>
      exists i :: 0 <= i < |children| && children[i].lineNumber == k'
    ensures forall k' :: k' in m && k' !in remaining - {k} ==>
      exists i :: 0 <= i < |children| + 1 && (children + [LineNode(r, k, m[k])])[i].lineNumber == k'
  {
    var next := children + [LineNode(r, k, m[k])];
    forall k' | k' in m && k' !in remaining - {k}
      ensures exists i :: 0 <= i < |next| && next[i].lineNumber == k'
    {
      if k' == k {
        assert next[|children|].lineNumber == k';
      } else {
        var i :| 0 <= i < |children| && children[i].lineNumber == k';
        assert next[i] == children[i];
      }
    }
  }

  /** The `for ... in` loop over a line map: integer keys come out in ascending
      order, each once. */
  method LineChildren(r: SearchResult, m: map<nat, string>) returns (children: seq<ResultNode>)
    ensures ListsLines(r, m, children) && |children| == |m|
  {
    var remaining := m.Keys;
    children := [];
    while remaining != {}
      invariant ListedSoFar(r, m, children, remaining)
      decreases |remaining|
    {
      MinExists(remaining);
      var k :| k in remaining && forall j :: j in remaining ==> k <= j;
      ListNext(r, m, children, remaining, k);
      children := children + [LineNode(r, k, m[k])];
      remaining := remaining - {k};
    }
  }
}
