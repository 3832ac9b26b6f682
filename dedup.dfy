// data/duplicate.py without the JSON files: links deduplicated by their
// (source_title, target_title) key, keeping the first link of each key.

module Dedup {
  /** One link object; `fields` stands for its other keys, such as link_type. */
  datatype Link = Link(sourceTitle: string, targetTitle: string, fields: map<string, string>)

  function Key(l: Link): (string, string)
  {
    (l.sourceTitle, l.targetTitle)
  }

  function Keys(links: seq<Link>): set<(string, string)>
  {
    set l | l in links :: Key(l)
  }

  /** The links of `links` whose key no earlier link has, in order. */
  function FirstOfEach(links: seq<Link>): (r: seq<Link>)
    ensures Keys(r) == Keys(links)
  {
    if links == [] then []
    else
      var init, last := links[..|links| - 1], links[|links| - 1];
      KeysSnoc(init, last);
      var r0 := FirstOfEach(init);
      if Key(last) in Keys(init) then r0
      else
        KeysSnoc(r0, last);
        r0 + [last]
  }

  lemma KeysSnoc(s: seq<Link>, x: Link)
    ensures Keys(s + [x]) == Keys(s) + {Key(x)}
  {
    assert forall l :: l in s + [x] <==> l in s || l == x;
  }

  /** seen equals the keys of deduped. */
  ghost predicate Seen(seen: set<(string, string)>, deduped: seq<Link>, done: seq<Link>)
  {
    seen == Keys(deduped) && deduped == FirstOfEach(done)
  }

  /** The loop of duplicate.py. */
  method Deduplicate(links: seq<Link>) returns (deduped: seq<Link>)
    ensures deduped == FirstOfEach(links)
  {
    var seen: set<(string, string)> := {};
    deduped := [];
    for i := 0 to |links|
      invariant Seen(seen, deduped, links[..i])
    {
      var link := links[i];
      var key := (link.sourceTitle, link.targetTitle);
      assert links[..i + 1] == links[..i] + [link];
      assert links[..i + 1][..i] == links[..i];
      if key !in seen {
        seen := seen + {key};
        KeysSnoc(deduped, link);
        deduped := deduped + [link];
      }
    }
    assert links[..|links|] == links;
  }

  /** No two links share a key. */
  predicate DistinctKeys(s: seq<Link>)
  {
    forall i, j :: 0 <= i < j < |s| ==> Key(s[i]) != Key(s[j])
  }

  /** No two output links share a key. */
  lemma {:induction false} FirstOfEachDistinct(links: seq<Link>)
    ensures DistinctKeys(FirstOfEach(links))
  {
    if links != [] {
      var init, last := links[..|links| - 1], links[|links| - 1];
      FirstOfEachDistinct(init);
      var r0 := FirstOfEach(init);
      if Key(last) !in Keys(init) {
        assert forall i :: 0 <= i < |r0| ==> Key(r0[i]) in Keys(r0);
      }
    }
  }

  /** s is a subsequence of t: t with some elements dropped, the rest in order. */
  ghost predicate Subsequence(s: seq<Link>, t: seq<Link>)
    decreases |t|
  {
    if s == [] then true
    else if t == [] then false
    else if s[|s| - 1] == t[|t| - 1] then Subsequence(s[..|s| - 1], t[..|t| - 1])
    else Subsequence(s, t[..|t| - 1])
  }

  /** The output keeps the input order. */
  lemma {:induction false} FirstOfEachSubsequence(links: seq<Link>)
    ensures Subsequence(FirstOfEach(links), links)
  {
    if links != [] {
      var init, last := links[..|links| - 1], links[|links| - 1];
      FirstOfEachSubsequence(init);
      var r0 := FirstOfEach(init);
      if Key(last) in Keys(init) {
        SubsequenceSnoc(r0, init, last);
      } else {
        assert (r0 + [last])[..|r0|] == r0;
      }
    }
  }

  /** Appending to t keeps s a subsequence of it. */
  lemma {:induction false} SubsequenceSnoc(s: seq<Link>, t: seq<Link>, x: Link)
    requires Subsequence(s, t)
    ensures Subsequence(s, t + [x])
    decreases |t|, 1
  {
    var t' := t + [x];
    assert t'[..|t'| - 1] == t;
    if s != [] && s[|s| - 1] == x {
      SubsequenceDrop(s, t);
    }
  }

  /** Dropping the last element of s keeps it a subsequence of t. */
  lemma {:induction false} SubsequenceDrop(s: seq<Link>, t: seq<Link>)
    requires s != [] && Subsequence(s, t)
    ensures Subsequence(s[..|s| - 1], t)
    decreases |t|, 0
  {
    var s', t' := s[..|s| - 1], t[..|t| - 1];
    assert t == t' + [t[|t| - 1]];
    if s[|s| - 1] != t[|t| - 1] {
      SubsequenceDrop(s, t');
    }
    SubsequenceSnoc(s', t', t[|t| - 1]);
  }

  /** The link kept for each key is the first link with that key. */
  lemma {:induction false} KeptIsFirst(links: seq<Link>, o: Link) returns (i: nat)
    requires o in FirstOfEach(links)
    ensures i < |links| && links[i] == o && forall j :: 0 <= j < i ==> Key(links[j]) != Key(o)
  {
    var init, last := links[..|links| - 1], links[|links| - 1];
    var r0 := FirstOfEach(init);
    if o in r0 {
      i := KeptIsFirst(init, o);
    } else {
      i := |links| - 1;
      assert forall j :: 0 <= j < i ==> links[j] in init;
    }
  }

  /** Deduplicating twice is deduplicating once. */
  lemma Idempotent(links: seq<Link>)
    ensures FirstOfEach(FirstOfEach(links)) == FirstOfEach(links)
  {
    FirstOfEachDistinct(links);
    DistinctKept(FirstOfEach(links));
  }

  /** A list without repeated keys is left unchanged. */
  lemma {:induction false} DistinctKept(s: seq<Link>)
    requires DistinctKeys(s)
    ensures FirstOfEach(s) == s
  {
    if s != [] {
      var init, last := s[..|s| - 1], s[|s| - 1];
      DistinctKept(init);
      assert forall j :: 0 <= j < |init| ==> Key(init[j]) != Key(last) by {
        forall j | 0 <= j < |init| ensures Key(init[j]) != Key(last) {
          assert init[j] == s[j];
        }
      }
      assert s == init + [last];
    }
  }
}
