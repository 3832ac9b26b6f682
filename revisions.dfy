// data/edit.py without the HTTP calls: revisions bucketed into fixed windows, the textual
// filter on diff lines, the revert test, the token Jaccard of two edits, and the loop of
// `main` that keeps an edit only when it undoes most of the previous kept edit.

module Revisions {
  import opened Wrappers
  import opened Text
  import opened GraphBasics

  // ---- bucket_revisions_by_delta ----

  /** (timestamp, revid): the timestamp in whole seconds; ISO-8601 parsing is not modelled. */
  datatype Revision = Revision(ts: int, revid: int)

  /** Python's order on the (timestamp, revid) tuples. */
  predicate RevLe(a: Revision, b: Revision)
  {
    a.ts < b.ts || (a.ts == b.ts && a.revid <= b.revid)
  }

  predicate SortedRevs(s: seq<Revision>)
  {
    forall i, j :: 0 <= i < j < |s| ==> RevLe(s[i], s[j])
  }

  /** x placed before the first element it does not exceed. */
  function Insert(x: Revision, s: seq<Revision>): (r: seq<Revision>)
    requires SortedRevs(s)
    ensures SortedRevs(r) && multiset(r) == multiset(s) + multiset{x} && |r| == |s| + 1
  {
    if s == [] || RevLe(x, s[0]) then [x] + s
    else
      var rest := Insert(x, s[1..]);
      assert s == [s[0]] + s[1..];
      HeadBelow(s, x, rest);
      ConsSorted(s[0], rest);
      [s[0]] + rest
  }

  /** The head of a sorted list is at most every element of the rest with x added. */
  lemma HeadBelow(s: seq<Revision>, x: Revision, rest: seq<Revision>)
    requires SortedRevs(s) && s != [] && !RevLe(x, s[0])
    requires multiset(rest) == multiset(s[1..]) + multiset{x}
    ensures forall k :: 0 <= k < |rest| ==> RevLe(s[0], rest[k])
  {
    forall k | 0 <= k < |rest|
      ensures RevLe(s[0], rest[k])
    {
      assert rest[k] in multiset(s[1..]) + multiset{x};
      if rest[k] != x {
        assert rest[k] in s[1..];
      }
    }
  }

  lemma ConsSorted(h: Revision, rest: seq<Revision>)
    requires SortedRevs(rest) && forall k :: 0 <= k < |rest| ==> RevLe(h, rest[k])
    ensures SortedRevs([h] + rest)
  {
    var r := [h] + rest;
    forall i, j | 0 <= i < j < |r|
      ensures RevLe(r[i], r[j])
    {
      assert r[j] == rest[j - 1];
      if i > 0 {
        assert r[i] == rest[i - 1];
      }
    }
  }

  /** rev_times.sort(): the library sort is modelled by insertion into a sorted list. */
  function SortRevs(s: seq<Revision>): (r: seq<Revision>)
    ensures SortedRevs(r) && multiset(r) == multiset(s) && |r| == |s|
  {
    if s == [] then []
    else
      assert s == s[..|s| - 1] + [s[|s| - 1]];
      Insert(s[|s| - 1], SortRevs(s[..|s| - 1]))
  }

  /** math.ceil(span / delta) or 1 */
  function NumBuckets(span: nat, delta: Pos): (n: Pos)
    ensures span == 0 ==> n == 1
    ensures span > 0 ==> (n - 1) * delta < span <= n * delta
  {
    if span == 0 then 1
    else
      var n := (span + delta - 1) / delta;
      DivBounds(span + delta - 1, delta);
      n
  }

  lemma DivBounds(a: nat, d: Pos)
    ensures (a / d) * d <= a < (a / d) * d + d
  {
  }

  /** The bucket of a revision at offset d from the window start: int(d / delta), clamped to the
      last bucket. */
  function BucketIndex(d: nat, delta: Pos, n: Pos): (i: nat)
    ensures i < n
    ensures i == n - 1 || (i * delta <= d < (i + 1) * delta)
    ensures i < n - 1 ==> d < (n - 1) * delta
    ensures i == n - 1 ==> (n - 1) * delta <= d
  {
    var q := d / delta;
    var i := if q >= n then n - 1 else q;
    ClampedQuotient(d, delta, n, i);
    i
  }

  /** The facts BucketIndex promises, for the clamped quotient i. */
  lemma ClampedQuotient(d: nat, delta: Pos, n: Pos, i: nat)
    requires i == if d / delta >= n then n - 1 else d / delta
    ensures i == n - 1 || (i * delta <= d < (i + 1) * delta)
    ensures i < n - 1 ==> d < (n - 1) * delta
    ensures i == n - 1 ==> (n - 1) * delta <= d
  {
    var q := d / delta;
    DivBounds(d, delta);
    assert (q + 1) * delta == q * delta + delta;
    if q >= n {
      MulLe(n - 1, q, delta);
    } else if q < n - 1 {
      MulLe(q + 1, n - 1, delta);
    }
  }

  lemma DivMono(a: nat, b: nat, d: Pos)
    requires a <= b
    ensures a / d <= b / d
  {
    DivBounds(a, d);
    DivBounds(b, d);
    if a / d > b / d {
      MulLe(b / d + 1, a / d, d);
    }
  }

  lemma BucketIndexMono(a: nat, b: nat, delta: Pos, n: Pos)
    requires a <= b
    ensures BucketIndex(a, delta, n) <= BucketIndex(b, delta, n)
  {
    DivMono(a, b, delta);
  }

  /** The concatenation of the buckets. */
  function Flatten(bs: seq<seq<Revision>>): (r: seq<Revision>)
  {
    if bs == [] then [] else Flatten(bs[..|bs| - 1]) + bs[|bs| - 1]
  }

  lemma {:induction false} FlattenEmpty(bs: seq<seq<Revision>>)
    requires forall i :: 0 <= i < |bs| ==> bs[i] == []
    ensures Flatten(bs) == []
  {
    if bs != [] {
      FlattenEmpty(bs[..|bs| - 1]);
    }
  }

  /** Appending to bucket m, when every later bucket is empty, appends to the concatenation. */
  lemma {:induction false} FlattenAppend(bs: seq<seq<Revision>>, m: nat, x: Revision)
    requires m < |bs| && forall i :: m < i < |bs| ==> bs[i] == []
    ensures Flatten(bs[m := bs[m] + [x]]) == Flatten(bs) + [x]
  {
    var bs' := bs[m := bs[m] + [x]];
    var last := |bs| - 1;
    assert bs'[..last] == if m < last then bs[..last][m := bs[m] + [x]] else bs[..last];
    if m < last {
      FlattenAppend(bs[..last], m, x);
    }
  }

  /** Each slot of an array of lists holds only revisions of its own bucket. */
  ghost predicate InOwnBucket(bs: seq<seq<Revision>>, start: int, delta: Pos)
  {
    forall i, k :: 0 <= i < |bs| && 0 <= k < |bs[i]| ==>
      bs[i][k].ts - start >= 0 && BucketIndex(bs[i][k].ts - start, delta, |bs|) == i
  }

  /** The slots after `last` are still empty. */
  ghost predicate EmptyAfter(bs: seq<seq<Revision>>, last: int)
  {
    forall i :: 0 <= i < |bs| && last < i ==> bs[i] == []
  }

  /** After j revisions: the buckets concatenate to them, each holds its own, and the slots
      after the last one used are empty. */
  ghost predicate Filled(bs: seq<seq<Revision>>, sorted: seq<Revision>, j: nat, start: int, delta: Pos, last: int)
  {
    j <= |sorted| && |bs| > 0 && Flatten(bs) == sorted[..j] && InOwnBucket(bs, start, delta) && EmptyAfter(bs, last)
    && (j == 0 ==> last == -1)
    && (j > 0 ==> sorted[j - 1].ts - start >= 0 && last == BucketIndex(sorted[j - 1].ts - start, delta, |bs|))
  }

  /** The loop `for ts, revid in rev_times: ... buckets[idx].append(...)`. */
  method FillBuckets(sorted: seq<Revision>, start: int, delta: Pos, n: Pos) returns (buckets: array<seq<Revision>>)
    requires SortedRevs(sorted) && forall j :: 0 <= j < |sorted| ==> sorted[j].ts >= start
    ensures buckets.Length == n
    ensures Flatten(buckets[..]) == sorted && InOwnBucket(buckets[..], start, delta)
  {
    buckets := new seq<Revision>[n](_ => []);
    FlattenEmpty(buckets[..]);
    ghost var last: int := -1;
    for j := 0 to |sorted|
      invariant buckets.Length == n && Filled(buckets[..], sorted, j, start, delta, last)
    {
      last := FillStep(buckets, sorted, j, start, delta, last);
    }
    assert sorted[..|sorted|] == sorted;
  }

  /** One turn of the loop: idx = int((ts - window_start) / delta), clamped, then the append. */
  method FillStep(buckets: array<seq<Revision>>, sorted: seq<Revision>, j: nat, start: int, delta: Pos, ghost last: int)
    returns (ghost last': int)
    requires SortedRevs(sorted) && j < |sorted| && sorted[j].ts >= start
    requires Filled(buckets[..], sorted, j, start, delta, last)
    modifies buckets
    ensures Filled(buckets[..], sorted, j + 1, start, delta, last')
  {
    var idx := BucketIndex(sorted[j].ts - start, delta, buckets.Length);
    if j > 0 {
      BucketIndexMono(sorted[j - 1].ts - start, sorted[j].ts - start, delta, buckets.Length);
    }
    PlaceStep(buckets, idx, sorted[j], start, delta, last);
    assert sorted[..j + 1] == sorted[..j] + [sorted[j]];
    last' := idx;
  }

  /** buckets[idx].append(x), with x in bucket idx and every later slot still empty. */
  method PlaceStep(buckets: array<seq<Revision>>, idx: nat, x: Revision, start: int, delta: Pos, ghost last: int)
    requires idx < buckets.Length && last <= idx
    requires x.ts - start >= 0 && BucketIndex(x.ts - start, delta, buckets.Length) == idx
    requires InOwnBucket(buckets[..], start, delta) && EmptyAfter(buckets[..], last)
    modifies buckets
    ensures buckets[..] == old(buckets[..])[idx := old(buckets[idx]) + [x]]
    ensures Flatten(buckets[..]) == Flatten(old(buckets[..])) + [x]
    ensures InOwnBucket(buckets[..], start, delta) && EmptyAfter(buckets[..], idx)
  {
    FlattenAppend(buckets[..], idx, x);
    buckets[idx] := buckets[idx] + [x];
  }

  /** The (window label, bucket) pairs bucket_revisions_by_delta returns. */
  function Labels(buckets: seq<seq<Revision>>, start: int, delta: Pos): (r: seq<(int, seq<Revision>)>)
    ensures |r| == |buckets|
    ensures forall i :: 0 <= i < |r| ==> r[i] == (start + i * delta, buckets[i])
  {
    seq(|buckets|, i requires 0 <= i < |buckets| => (start + i * delta, buckets[i]))
  }

  /** The buckets of a result, without labels. */
  function Contents(r: seq<(int, seq<Revision>)>): (bs: seq<seq<Revision>>)
    ensures |bs| == |r| && forall i :: 0 <= i < |r| ==> bs[i] == r[i].1
  {
    seq(|r|, i requires 0 <= i < |r| => r[i].1)
  }

  /** r is the sorted, non-empty list of revisions cut into max(ceil(span / delta), 1) windows of
      delta seconds labelled from the earliest timestamp, a revision at offset d lying in window
      min(floor(d / delta), n - 1). */
  ghost predicate WindowsOf(sorted: seq<Revision>, delta: Pos, r: seq<(int, seq<Revision>)>)
  {
    sorted != [] && sorted[0].ts <= sorted[|sorted| - 1].ts
    && var start := sorted[0].ts;
    |r| == NumBuckets(sorted[|sorted| - 1].ts - start, delta)
    && (forall i :: 0 <= i < |r| ==> r[i].0 == start + i * delta)
    && Flatten(Contents(r)) == sorted
    && InOwnBucket(Contents(r), start, delta)
  }

  /** bucket_revisions_by_delta with delta_minutes > 0: the revisions sorted, then windowed. */
  method BucketRevisionsByDelta(revisions: seq<Revision>, deltaMinutes: int) returns (r: seq<(int, seq<Revision>)>)
    requires deltaMinutes > 0
    ensures revisions == [] ==> r == []
    ensures revisions != [] ==> WindowsOf(SortRevs(revisions), 60 * deltaMinutes, r)
  {
    if revisions == [] {
      return [];
    }
    var sorted := SortRevs(revisions);
    r := Windows(sorted, 60 * deltaMinutes);
  }

  lemma StartIsLeast(sorted: seq<Revision>)
    requires SortedRevs(sorted) && sorted != []
    ensures forall j :: 0 <= j < |sorted| ==> sorted[j].ts >= sorted[0].ts
  {
    forall j | 0 < j < |sorted| ensures sorted[j].ts >= sorted[0].ts {
      assert RevLe(sorted[0], sorted[j]);
    }
  }

  method Windows(sorted: seq<Revision>, delta: Pos) returns (r: seq<(int, seq<Revision>)>)
    requires SortedRevs(sorted) && sorted != []
    ensures WindowsOf(sorted, delta, r)
  {
    var start, end := sorted[0].ts, sorted[|sorted| - 1].ts;
    StartIsLeast(sorted);
    var n := NumBuckets(end - start, delta);
    var buckets := FillBuckets(sorted, start, delta, n);
    r := Labels(buckets[..], start, delta);
    assert Contents(r) == buckets[..];
  }

  // ---- what the buckets satisfy ----

  lemma {:induction false} FlattenLength(bs: seq<seq<Revision>>)
    ensures |Flatten(bs)| == SumLengths(bs)
  {
    if bs != [] {
      FlattenLength(bs[..|bs| - 1]);
    }
  }

  function SumLengths(bs: seq<seq<Revision>>): nat
  {
    if bs == [] then 0 else SumLengths(bs[..|bs| - 1]) + |bs[|bs| - 1]|
  }

  /** Every part of a sorted concatenation is sorted. */
  lemma {:induction false} FlattenSortedParts(bs: seq<seq<Revision>>, i: nat)
    requires SortedRevs(Flatten(bs)) && i < |bs|
    ensures SortedRevs(bs[i])
  {
    var init := bs[..|bs| - 1];
    var f := Flatten(bs);
    assert f == Flatten(init) + bs[|bs| - 1];
    if i < |bs| - 1 {
      assert forall a, b :: 0 <= a < b < |Flatten(init)| ==> Flatten(init)[a] == f[a] && Flatten(init)[b] == f[b];
      FlattenSortedParts(init, i);
    } else {
      var o := |Flatten(init)|;
      assert forall a :: 0 <= a < |bs[i]| ==> bs[i][a] == f[o + a];
    }
  }

  /** Every revision lands in exactly one bucket: the buckets hold the revisions, none lost and
      none repeated, their sizes add up to the input size, and each bucket is in time order. */
  lemma BucketsPartition(revisions: seq<Revision>, delta: Pos, r: seq<(int, seq<Revision>)>)
    requires revisions != [] && WindowsOf(SortRevs(revisions), delta, r)
    ensures multiset(Flatten(Contents(r))) == multiset(revisions)
    ensures SumLengths(Contents(r)) == |revisions|
    ensures forall i :: 0 <= i < |r| ==> SortedRevs(r[i].1)
  {
    FlattenLength(Contents(r));
    forall i | 0 <= i < |r|
      ensures SortedRevs(r[i].1)
    {
      FlattenSortedParts(Contents(r), i);
    }
  }

  // ---- the textual filter of get_textual_changes ----

  /** The diff lines of one revision pair, after or before filtering. */
  datatype Changes = Changes(added: seq<string>, deleted: seq<string>)

  const ImageSuffixes: seq<string> := [".jpg", ".jpeg", ".png", ".svg", ".gif"]
  const FieldNames: seq<string> := ["image", "alt", "caption", "bgcolor", "title", "logo"]
  const FileLinks: seq<string> := ["[[file:", "[[image:"]

  /** Some pattern occurs somewhere in text. */
  predicate ContainsAny(text: string, pats: seq<string>)
  {
    exists p :: p in pats && Find(text, p) != -1
  }

  /** ^\|\s*(image|alt|caption|bgcolor|title|logo)\s*= ignoring case: a template field line. */
  predicate FieldLine(line: string)
  {
    |line| > 0 && line[0] == '|'
    && var rest := Lower(StripLeft(line[1..]));
       exists name :: name in FieldNames && StartsWith(rest, name)
         && var after := StripLeft(rest[|name|..]); |after| > 0 && after[0] == '='
  }

  /** is_textual: no image file name, no image-like template field, no file or image link. */
  predicate IsTextual(line: string)
  {
    !ContainsAny(Lower(line), ImageSuffixes) && !FieldLine(line) && !ContainsAny(Lower(line), FileLinks)
  }

  /** [line for line in raw if is_textual(line)] */
  function TextualLines(raw: seq<string>): (r: seq<string>)
    ensures forall l :: l in r <==> l in raw && IsTextual(l)
    ensures |r| <= |raw|
  {
    if raw == [] then []
    else TextualLines(raw[..|raw| - 1]) + (if IsTextual(raw[|raw| - 1]) then [raw[|raw| - 1]] else [])
  }

  /** The filter keeps the input order: filtering a concatenation concatenates the filtered parts. */
  lemma {:induction false} TextualLinesAppend(a: seq<string>, b: seq<string>)
    ensures TextualLines(a + b) == TextualLines(a) + TextualLines(b)
    decreases |b|
  {
    if b == [] {
      assert a + b == a;
    } else {
      var b' := b[..|b| - 1];
      assert (a + b)[..|a + b| - 1] == a + b';
      TextualLinesAppend(a, b');
    }
  }

  /** The tail of get_textual_changes: None when no textual line is left on either side. */
  function TextualChanges(addedRaw: seq<string>, deletedRaw: seq<string>): (r: Option<Changes>)
    ensures r.None? <==> (forall l :: l in addedRaw ==> !IsTextual(l)) && (forall l :: l in deletedRaw ==> !IsTextual(l))
    ensures r.Some? ==> r.value == Changes(TextualLines(addedRaw), TextualLines(deletedRaw))
  {
    var added := TextualLines(addedRaw);
    var deleted := TextualLines(deletedRaw);
    if added == [] && deleted == [] then None
    else
      assert added != [] ==> added[0] in added;
      assert deleted != [] ==> deleted[0] in deleted;
      Some(Changes(added, deleted))
  }

  /** A line holding an image file name or a file or image link, in any case, is dropped. */
  lemma ImageNotTextual(line: string, p: string, k: int)
    requires p in ImageSuffixes + FileLinks && OccursAt(Lower(line), p, k)
    ensures !IsTextual(line)
  {
  }

  /** Every dropping pattern needs a '.', a '[' or a leading '|': a line without them is kept. */
  lemma PlainLineIsTextual(line: string)
    requires forall i :: 0 <= i < |line| ==> line[i] != '.' && line[i] != '['
    requires line == [] || line[0] != '|'
    ensures IsTextual(line)
  {
    var low := Lower(line);
    forall p, k | p in ImageSuffixes + FileLinks && OccursAt(low, p, k)
      ensures low[k] == '.' || low[k] == '['
    {
      assert low[k] == low[k..k + |p|][0];
    }
    assert forall i :: 0 <= i < |low| ==> low[i] != '.' && low[i] != '[';
    assert !ContainsAny(low, ImageSuffixes);
    assert !ContainsAny(low, FileLinks);
  }

  // ---- is_revert ----

  /** is_revert: the current change adds what the previous one deleted and deletes what it added. */
  predicate IsRevert(prev: Option<Changes>, curr: Option<Changes>)
  {
    prev.Some? && curr.Some? && curr.value.added == prev.value.deleted && curr.value.deleted == prev.value.added
  }

  function Swap(c: Changes): Changes
  {
    Changes(c.deleted, c.added)
  }

  /** A change is reverted exactly by its swap, and the relation is symmetric. */
  lemma IsRevertIff(prev: Option<Changes>, curr: Option<Changes>)
    ensures IsRevert(prev, curr) <==> prev.Some? && curr == Some(Swap(prev.value))
    ensures IsRevert(prev, curr) <==> IsRevert(curr, prev)
  {
  }

  // ---- jaccard on edits ----

  /** {w.lower() for line in lines for w in re.findall(r'\w+', line)} */
  function EditTokens(lines: seq<string>): set<string>
  {
    set line, w | line in lines && w in Runs(line, IsWordChar) :: Lower(w)
  }

  /** A token is a maximal run of word characters of one line, lower-cased, and every such
      run gives a token. */
  lemma EditTokensIff(lines: seq<string>, t: string)
    ensures t in EditTokens(lines) <==>
      exists line, i, j :: line in lines && MaximalRun(line, IsWordChar, i, j) && t == Lower(line[i..j])
  {
    if t in EditTokens(lines) {
      var line, w :| line in lines && w in Runs(line, IsWordChar) && t == Lower(w);
      var i, j := RunsSound(line, IsWordChar, w);
    }
    if exists line, i, j :: line in lines && MaximalRun(line, IsWordChar, i, j) && t == Lower(line[i..j]) {
      var line, i, j :| line in lines && MaximalRun(line, IsWordChar, i, j) && t == Lower(line[i..j]);
      RunsComplete(line, IsWordChar, i, j);
    }
  }

  /** Tokens are non-empty runs of word characters with no upper-case letter. */
  lemma EditTokensShape(lines: seq<string>, t: string)
    requires t in EditTokens(lines)
    ensures |t| > 0 && forall i :: 0 <= i < |t| ==> IsWordChar(t[i]) && !('A' <= t[i] <= 'Z')
  {
    var line, w :| line in lines && w in Runs(line, IsWordChar) && t == Lower(w);
    RunsAreRuns(line, IsWordChar);
  }

  /** The initial prev_changes " " yields no token. */
  lemma BlankHasNoTokens()
    ensures EditTokens([" "]) == {}
  {
    RunsOfNone(" ", IsWordChar);
  }

  /** jaccard(edit_a, edit_b): 1 when neither side has a token. */
  function EditJaccard(a: seq<string>, b: seq<string>): (r: Ratio)
    ensures r.num <= r.den
  {
    var ta, tb := EditTokens(a), EditTokens(b);
    if ta == {} && tb == {} then Ratio(1, 1)
    else
      SubsetCard(ta * tb, ta + tb);
      Ratio(|ta * tb|, |ta + tb|)
  }

  /** Both sides without tokens give 1, exactly one side without tokens gives 0, and the
      value is symmetric. */
  lemma EditJaccardCases(a: seq<string>, b: seq<string>)
    ensures EditTokens(a) == {} && EditTokens(b) == {} ==> EditJaccard(a, b) == Ratio(1, 1)
    ensures (EditTokens(a) == {}) != (EditTokens(b) == {}) ==> EditJaccard(a, b).num == 0
    ensures EditJaccard(a, b) == EditJaccard(b, a)
  {
    var ta, tb := EditTokens(a), EditTokens(b);
    assert ta * tb == tb * ta && ta + tb == tb + ta;
  }

  // ---- the keep/clear loop of main ----

  /** A kept edit as main records it; the ISO timestamp string is the revision's timestamp. */
  datatype Record = Record(title: string, ts: int, added: seq<string>, deleted: seq<string>)

  /** prev_changes before the first pair of a bucket. */
  const Initial: Changes := Changes([" "], [" "])

  /** The decision for one change: with sim_added > 0.8 the added lines are cleared, else with
      sim_deleted > 0.8 the deleted lines are, else the change is skipped. */
  function Keep(prev: Changes, curr: Changes): Option<Changes>
  {
    if Above(EditJaccard(curr.added, prev.deleted), 0.8) then Some(curr.(added := []))
    else if Above(EditJaccard(curr.deleted, prev.added), 0.8) then Some(curr.(deleted := []))
    else None
  }

  /** A change is kept iff one of the two similarities exceeds 0.8; a kept change has its added
      lines cleared when the first does, its deleted lines otherwise, and nothing else changed. */
  lemma KeepIff(prev: Changes, curr: Changes)
    ensures Keep(prev, curr).Some? <==>
      Above(EditJaccard(curr.added, prev.deleted), 0.8) || Above(EditJaccard(curr.deleted, prev.added), 0.8)
    ensures Above(EditJaccard(curr.added, prev.deleted), 0.8) ==> Keep(prev, curr) == Some(Changes([], curr.deleted))
    ensures !Above(EditJaccard(curr.added, prev.deleted), 0.8) && Keep(prev, curr).Some? ==>
      Keep(prev, curr) == Some(Changes(curr.added, []))
    ensures Keep(prev, curr).Some? ==> Keep(prev, curr).value.added == [] || Keep(prev, curr).value.deleted == []
  {
  }

  /** Against the initial prev_changes a change is kept iff its added or its deleted lines have
      no word token. */
  lemma KeepFirst(curr: Changes)
    ensures Keep(Initial, curr).Some? <==> EditTokens(curr.added) == {} || EditTokens(curr.deleted) == {}
  {
    BlankHasNoTokens();
    EditJaccardCases(curr.added, [" "]);
    EditJaccardCases(curr.deleted, [" "]);
  }

  /** prev_changes and the records after the first n pairs of a bucket. */
  datatype Scan = Scan(prev: Changes, records: seq<Record>)

  /** One pair of the inner loop: a change that is fetched and kept becomes prev_changes and is
      recorded with the older revision's timestamp. */
  function ScanPair(st: Scan, title: string, ts: int, c: Option<Changes>): Scan
  {
    match c
    case None => st
    case Some(c) =>
      match Keep(st.prev, c)
      case None => st
      case Some(k) => Scan(k, st.records + [Record(title, ts, k.added, k.deleted)])
  }

  function ScanBucket(bucket: seq<Revision>, diff: (int, int) -> Option<Changes>, title: string, n: nat): Scan
    requires n == 0 || n < |bucket|
  {
    if n == 0 then Scan(Initial, [])
    else ScanPair(ScanBucket(bucket, diff, title, n - 1), title, bucket[n - 1].ts,
                  diff(bucket[n - 1].revid, bucket[n].revid))
  }

  /** The inner loop of main over one non-empty bucket; `diff` stands for get_textual_changes. */
  method ProcessBucket(bucket: seq<Revision>, diff: (int, int) -> Option<Changes>, title: string)
    returns (records: seq<Record>)
    requires bucket != []
    ensures records == ScanBucket(bucket, diff, title, |bucket| - 1).records
  {
    records := [];
    var prev := Initial;
    for i := 0 to |bucket| - 1
      invariant Scan(prev, records) == ScanBucket(bucket, diff, title, i)
    {
      var curr := diff(bucket[i].revid, bucket[i + 1].revid);
      if curr.Some? {
        var c := curr.value;
        var simAdded := EditJaccard(c.added, prev.deleted);
        var simDeleted := EditJaccard(c.deleted, prev.added);
        if Above(simAdded, 0.8) {
          c := c.(added := []);
        } else if Above(simDeleted, 0.8) {
          c := c.(deleted := []);
        } else {
          continue;
        }
        records := records + [Record(title, bucket[i].ts, c.added, c.deleted)];
        prev := c;
      }
    }
  }

  /** The facts one scan state keeps: at most one record per pair seen, each record cleared on
      one side, and prev_changes equal to the last record's change or the initial one. */
  ghost predicate ScanOk(st: Scan, n: nat)
  {
    |st.records| <= n
    && (forall r :: r in st.records ==> r.added == [] || r.deleted == [])
    && st.prev == (if st.records == [] then Initial
                   else Changes(st.records[|st.records| - 1].added, st.records[|st.records| - 1].deleted))
  }

  lemma ScanStep(st: Scan, n: nat, title: string, ts: int, c: Option<Changes>)
    requires ScanOk(st, n)
    ensures ScanOk(ScanPair(st, title, ts, c), n + 1)
  {
    if c.Some? && Keep(st.prev, c.value).Some? {
      KeepIff(st.prev, c.value);
      ScanRecord(st, n, title, ts, Keep(st.prev, c.value).value);
    }
  }

  lemma ScanRecord(st: Scan, n: nat, title: string, ts: int, k: Changes)
    requires ScanOk(st, n) && (k.added == [] || k.deleted == [])
    ensures ScanOk(Scan(k, st.records + [Record(title, ts, k.added, k.deleted)]), n + 1)
  {
    var rs := st.records + [Record(title, ts, k.added, k.deleted)];
    assert forall r :: r in rs ==> r in st.records || r == rs[|rs| - 1];
  }

  /** Every record has empty added or empty deleted lines; there is at most one per pair; and
      prev_changes is the last record's change, or the initial one while nothing is recorded. */
  lemma {:induction false} ScanFacts(bucket: seq<Revision>, diff: (int, int) -> Option<Changes>, title: string, n: nat)
    requires n == 0 || n < |bucket|
    ensures ScanOk(ScanBucket(bucket, diff, title, n), n)
  {
    if n > 0 {
      ScanFacts(bucket, diff, title, n - 1);
      ScanStep(ScanBucket(bucket, diff, title, n - 1), n - 1, title, bucket[n - 1].ts,
               diff(bucket[n - 1].revid, bucket[n].revid));
    }
  }

  /** The records of all buckets, in bucket order; empty buckets are skipped. */
  function AllRecords(buckets: seq<(int, seq<Revision>)>, diff: (int, int) -> Option<Changes>, title: string)
    : seq<Record>
  {
    if buckets == [] then []
    else
      var last := buckets[|buckets| - 1].1;
      AllRecords(buckets[..|buckets| - 1], diff, title)
      + (if last == [] then [] else ScanBucket(last, diff, title, |last| - 1).records)
  }

  /** main(title, ...) without the fetches and the JSON file: the bucketed revisions scanned
      bucket by bucket. */
  method EditMain(revisions: seq<Revision>, deltaMinutes: int, diff: (int, int) -> Option<Changes>, title: string)
    returns (results: seq<Record>, ghost buckets: seq<(int, seq<Revision>)>)
    requires deltaMinutes > 0
    ensures revisions == [] ==> buckets == []
    ensures revisions != [] ==> WindowsOf(SortRevs(revisions), 60 * deltaMinutes, buckets)
    ensures results == AllRecords(buckets, diff, title)
    ensures forall r :: r in results ==> r.title == title && (r.added == [] || r.deleted == [])
  {
    var windows := BucketRevisionsByDelta(revisions, deltaMinutes);
    buckets := windows;
    results := [];
    for b := 0 to |windows|
      invariant results == AllRecords(windows[..b], diff, title)
    {
      var bucket := windows[b].1;
      assert windows[..b + 1][..b] == windows[..b];
      if bucket == [] {
        continue;
      }
      var records := ProcessBucket(bucket, diff, title);
      results := results + records;
    }
    assert windows[..|windows|] == windows;
    AllRecordsCleared(windows, diff, title);
  }

  lemma {:induction false} AllRecordsCleared(buckets: seq<(int, seq<Revision>)>, diff: (int, int) -> Option<Changes>,
                                             title: string)
    ensures forall r :: r in AllRecords(buckets, diff, title) ==> r.title == title && (r.added == [] || r.deleted == [])
  {
    if buckets != [] {
      AllRecordsCleared(buckets[..|buckets| - 1], diff, title);
      var last := buckets[|buckets| - 1].1;
      if last != [] {
        ScanFacts(last, diff, title, |last| - 1);
        ScanTitles(last, diff, title, |last| - 1);
      }
    }
  }

  lemma {:induction false} ScanTitles(bucket: seq<Revision>, diff: (int, int) -> Option<Changes>, title: string, n: nat)
    requires n == 0 || n < |bucket|
    ensures forall r :: r in ScanBucket(bucket, diff, title, n).records ==> r.title == title
  {
    if n > 0 {
      ScanTitles(bucket, diff, title, n - 1);
    }
  }
}
