// Edit records and the wiki-link extraction that annotates them (graph/build_graphs.py,
// parse_entity_links): the entity name comes from the file name, each edit's added lines are
// joined with spaces and every `[[Target|Display]]` contributes its trimmed Target.

module EditRecords {
  import opened Text

  /** One edit as read from an entity's JSON file; the ISO timestamp is already in seconds. */
  datatype RawEdit = RawEdit(timestamp: int, added: seq<string>)

  /** An annotated edit: the dictionary parse_entity_links appends. */
  datatype Edit = Edit(entity: string, timestamp: int, added: seq<string>, links: set<string>)

  // ---- the regex \[\[(.*?)\]\] ----

  predicate OpenAt(text: string, i: int)
  {
    0 <= i && i + 2 <= |text| && text[i] == '[' && text[i + 1] == '['
  }

  predicate CloseAt(text: string, j: int)
  {
    0 <= j && j + 2 <= |text| && text[j] == ']' && text[j + 1] == ']'
  }

  /** `.` does not match a newline, so a link's content lies on one line. */
  predicate NoNewline(text: string, k: int, j: int)
    requires 0 <= k <= j <= |text|
  {
    forall p :: k <= p < j ==> text[p] != '\n'
  }

  /** "]]" at j closes the link whose content starts at k, with nothing shorter closing it. */
  predicate ClosesFirst(text: string, k: int, j: int)
  {
    0 <= k <= j && CloseAt(text, j) && NoNewline(text, k, j)
    && forall p :: k <= p < j ==> !CloseAt(text, p)
  }

  /** The lazy `.*?` followed by `\]\]`: the end of the shortest content starting at k, or -1. */
  function CloseFrom(text: string, k: nat): (j: int)
    ensures j == -1 || ClosesFirst(text, k, j)
    ensures j == -1 ==> forall q :: k <= q && CloseAt(text, q) ==> !NoNewline(text, k, q)
    decreases |text| - k
  {
    if k + 2 > |text| then -1
    else if text[k] == ']' && text[k + 1] == ']' then k
    else if text[k] == '\n' then -1
    else CloseFrom(text, k + 1)
  }

  /** No "]]" inside a link's content: the lazy match stops at the first one. */
  predicate NoCloseInside(l: string)
  {
    forall p :: 0 <= p < |l| - 1 ==> !(l[p] == ']' && l[p + 1] == ']')
  }

  /** re.findall(r'\[\[(.*?)\]\]', text) from position i, scanning on after each match. */
  function FindLinksFrom(text: string, i: nat): (r: seq<string>)
    ensures forall l :: l in r ==> '\n' !in l && NoCloseInside(l)
    decreases |text| - i
  {
    if i + 2 > |text| then []
    else if OpenAt(text, i) then
      var j := CloseFrom(text, i + 2);
      if j >= 0 then
        ContentShape(text, i + 2, j);
        [text[i + 2..j]] + FindLinksFrom(text, j + 2)
      else FindLinksFrom(text, i + 1)
    else FindLinksFrom(text, i + 1)
  }

  lemma ContentShape(text: string, k: int, j: int)
    requires ClosesFirst(text, k, j)
    ensures '\n' !in text[k..j] && NoCloseInside(text[k..j])
  {
    var l := text[k..j];
    forall p | 0 <= p < |l| - 1
      ensures !(l[p] == ']' && l[p + 1] == ']')
    {
      assert l[p] == text[k + p] && l[p + 1] == text[k + p + 1];
      assert !CloseAt(text, k + p);
    }
    forall p | 0 <= p < |l|
      ensures l[p] != '\n'
    {
      assert l[p] == text[k + p];
    }
  }

  /** Text holds a complete link: "[[" followed, on the same line, by "]]". */
  ghost predicate HasCompleteLink(text: string)
  {
    exists i, j :: OpenAt(text, i) && i + 2 <= j && CloseAt(text, j) && NoNewline(text, i + 2, j)
  }

  ghost predicate HasCompleteLinkFrom(text: string, p: int)
  {
    exists i, j :: p <= i && OpenAt(text, i) && i + 2 <= j && CloseAt(text, j) && NoNewline(text, i + 2, j)
  }

  /** findall finds something exactly when a complete link starts at or after p. */
  lemma {:induction false} FindLinksEmptyIff(text: string, p: nat)
    ensures FindLinksFrom(text, p) == [] <==> !HasCompleteLinkFrom(text, p)
    decreases |text| - p
  {
    if p + 2 > |text| {
    } else if OpenAt(text, p) && CloseFrom(text, p + 2) >= 0 {
      var j := CloseFrom(text, p + 2);
      assert OpenAt(text, p) && p + 2 <= j && CloseAt(text, j) && NoNewline(text, p + 2, j);
    } else {
      FindLinksEmptyIff(text, p + 1);
      if HasCompleteLinkFrom(text, p) {
        var i, j :| p <= i && OpenAt(text, i) && i + 2 <= j && CloseAt(text, j) && NoNewline(text, i + 2, j);
        if i == p {
          assert false;
        }
        assert HasCompleteLinkFrom(text, p + 1);
      }
    }
  }

  /** l.split('|')[0]: the text before the first pipe. */
  function BeforePipe(l: string): (r: string)
    ensures '|' !in r
    ensures r == l || (|r| < |l| && l[|r|] == '|' && r == l[..|r|])
  {
    if l == [] then []
    else if l[0] == '|' then []
    else [l[0]] + BeforePipe(l[1..])
  }

  /** One link target: l.split('|')[0].strip(). */
  function CleanLink(l: string): string
  {
    Strip(BeforePipe(l))
  }

  /** links_added: the set of cleaned targets found in the space-joined added lines. */
  function LinksAdded(added: seq<string>): (r: set<string>)
  {
    Targets(FindLinksFrom(Join(added, " "), 0))
  }

  /** {l.split('|')[0].strip() for l in found} */
  function Targets(found: seq<string>): set<string>
  {
    set l | l in found :: CleanLink(l)
  }

  /** A target never contains a pipe and never starts or ends with whitespace. */
  lemma LinkTargetShape(added: seq<string>, t: string)
    requires t in LinksAdded(added)
    ensures '|' !in t
    ensures t == [] || (!IsSpace(t[0]) && !IsSpace(t[|t| - 1]))
  {
    var l :| l in FindLinksFrom(Join(added, " "), 0) && CleanLink(l) == t;
    var b := BeforePipe(l);
    StripInside(b);
  }

  lemma StripInside(b: string)
    ensures forall c :: c in Strip(b) ==> c in b
  {
    var l := StripLeft(b);
    assert forall c :: c in l ==> c in b;
    assert forall c :: c in StripRight(l) ==> c in l;
  }

  /** An edit has link targets exactly when its joined added text holds a complete `[[...]]`. */
  lemma NoTargetsIffNoCompleteLink(added: seq<string>)
    ensures LinksAdded(added) == {} <==> !HasCompleteLink(Join(added, " "))
  {
    var text := Join(added, " ");
    FindLinksEmptyIff(text, 0);
    var found := FindLinksFrom(text, 0);
    if found != [] {
      assert CleanLink(found[0]) in LinksAdded(added);
    }
    if HasCompleteLink(text) {
      var i, j :| OpenAt(text, i) && i + 2 <= j && CloseAt(text, j) && NoNewline(text, i + 2, j);
      assert HasCompleteLinkFrom(text, 0);
    }
  }

  /** A single well-formed link yields its trimmed target. */
  lemma OneLink(target: string, display: string)
    requires '|' !in target && '\n' !in target + display && ']' !in target + display
    ensures LinksAdded(["[[" + target + "|" + display + "]]"]) == {Strip(target)}
  {
    var content := target + "|" + display;
    var line := "[[" + content + "]]";
    assert "[[" + target + "|" + display + "]]" == line;
    assert Join([line], " ") == line;
    PipedContent(target, display);
    FindOneLink(content);
    TargetsOfOne(content);
    BeforePipeOf(target, display);
  }

  lemma TargetsOfOne(l: string)
    ensures Targets([l]) == {CleanLink(l)}
  {
    assert forall m :: m in [l] <==> m == l;
  }

  lemma PipedContent(target: string, display: string)
    requires '\n' !in target + display && ']' !in target + display
    ensures '\n' !in target + "|" + display && ']' !in target + "|" + display
  {
    var content := target + "|" + display;
    forall i | 0 <= i < |content|
      ensures content[i] != '\n' && content[i] != ']'
    {
      if i < |target| {
        assert content[i] == (target + display)[i];
      } else if i > |target| {
        assert content[i] == (target + display)[i - 1];
      }
    }
  }

  /** findall over "[[content]]" finds exactly content. */
  lemma FindOneLink(content: string)
    requires '\n' !in content && ']' !in content
    ensures FindLinksFrom("[[" + content + "]]", 0) == [content]
  {
    var text := "[[" + content + "]]";
    var j := |text| - 2;
    assert text[2..j] == content;
    CloseFromAt(text, 2, j);
    assert FindLinksFrom(text, j + 2) == [];
  }

  lemma {:induction false} CloseFromAt(text: string, k: nat, j: nat)
    requires k <= j && CloseAt(text, j)
    requires forall p :: k <= p < j ==> text[p] != '\n' && text[p] != ']'
    ensures CloseFrom(text, k) == j
    decreases j - k
  {
    if k < j {
      CloseFromAt(text, k + 1, j);
    }
  }

  lemma {:induction false} BeforePipeOf(target: string, rest: string)
    requires '|' !in target
    ensures BeforePipe(target + "|" + rest) == target
    decreases |target|
  {
    if target != [] {
      assert (target + "|" + rest)[1..] == target[1..] + "|" + rest;
      BeforePipeOf(target[1..], rest);
    }
  }

  // ---- entity name from the file path ----

  /** Index of the last occurrence of c in s, or -1. */
  function LastIndexOf(s: string, c: char): (r: int)
    ensures -1 <= r < |s|
    ensures r >= 0 ==> s[r] == c && forall p :: r < p < |s| ==> s[p] != c
    ensures r == -1 ==> c !in s
  {
    if s == [] then -1
    else if s[|s| - 1] == c then |s| - 1
    else LastIndexOf(s[..|s| - 1], c)
  }

  lemma LastIndexAt(s: string, c: char, k: int)
    requires 0 <= k < |s| && s[k] == c && forall p :: k < p < |s| ==> s[p] != c
    ensures LastIndexOf(s, c) == k
  {
  }

  /** os.path.basename */
  function BaseName(path: string): (r: string)
    ensures '/' !in r
  {
    path[LastIndexOf(path, '/') + 1..]
  }

  /** os.path.splitext(name)[0]: cut at the last dot unless only dots precede it. */
  function StripExt(name: string): string
  {
    var dot := LastIndexOf(name, '.');
    if dot > 0 && exists p :: 0 <= p < dot && name[p] != '.' then name[..dot] else name
  }

  /** The entity of an edits file: splitext(basename(path))[0][6:]. */
  function EntityName(path: string): string
  {
    var root := StripExt(BaseName(path));
    if |root| <= 6 then [] else root[6..]
  }

  /** edits_X.json in any directory is the file of entity X. */
  lemma EntityNameOfEditsFile(dir: string, x: string)
    requires '/' !in x
    ensures EntityName(dir + "/edits_" + x + ".json") == x
  {
    var name := "edits_" + x + ".json";
    assert dir + "/edits_" + x + ".json" == (dir + "/") + name;
    BaseNameAfterSlash(dir, name);
    LastIndexAt(name, '.', |name| - 5);
    assert name[0] != '.';
    assert name[..|name| - 5] == "edits_" + x;
  }

  lemma BaseNameAfterSlash(dir: string, name: string)
    requires '/' !in name
    ensures BaseName((dir + "/") + name) == name
  {
    var path := (dir + "/") + name;
    assert forall p :: |dir| < p < |path| ==> path[p] == name[p - |dir| - 1];
    LastIndexAt(path, '/', |dir|);
  }

  // ---- parse_entity_links without the file read ----

  /** The annotated edit of one raw edit of `entity`. */
  function Annotate(entity: string, raw: RawEdit): (e: Edit)
  {
    Edit(entity, raw.timestamp, raw.added, LinksAdded(raw.added))
  }

  /** The loop of parse_entity_links: one annotated record per raw edit, in file order. */
  method ParseEntityLinks(path: string, raws: seq<RawEdit>) returns (results: seq<Edit>)
    ensures |results| == |raws|
    ensures forall i :: 0 <= i < |raws| ==> results[i] == Annotate(EntityName(path), raws[i])
  {
    var entity := EntityName(path);
    results := [];
    for i := 0 to |raws|
      invariant |results| == i
      invariant forall k :: 0 <= k < i ==> results[k] == Annotate(entity, raws[k])
    {
      results := results + [Annotate(entity, raws[i])];
    }
  }
}
