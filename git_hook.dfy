/**
  The git-hook editor: a pyci-check block, delimited by a start-marker line
  and an end-marker line, is appended to a hook script, replaced in place, or
  removed again; plus the `.py` filter over the names `git diff` prints.
  Reading, writing, deleting and `chmod` of the hook file are left to the
  caller: the operations here take the file's text (None when the file does
  not exist) and say what is to be written.
 */
module GitHook {
  import opened Wrappers
  import opened Strings

  const StartMarker := "# >>> pyci-check start >>>"
  const EndMarker := "# <<< pyci-check end <<<"

  /** The text a new hook file starts from. */
  const ShebangLine := "#!/usr/bin/env bash"
  const NewHookText := ShebangLine + "\nset -e\n\n"

  /** The block for hook content `c`, ending with a newline. */
  function Block(c: string): string
  {
    StartMarker + "\n" + c + "\n" + EndMarker + "\n"
  }

  /*
   * Facts about the markers.
   */

  /** Each marker holds "#" only at its first character and no newline at all. */
  lemma MarkerFacts()
    ensures |StartMarker| == 26 && |EndMarker| == 24
    ensures StartMarker[0] == '#' && EndMarker[0] == '#'
    ensures StartMarker[2] == '>' && EndMarker[2] == '<'
    ensures forall j :: 1 <= j < |StartMarker| ==> StartMarker[j] != '#' && StartMarker[j] != '\n'
    ensures forall j :: 1 <= j < |EndMarker| ==> EndMarker[j] != '#' && EndMarker[j] != '\n'
  {
  }

  /** An occurrence of `p` at `i` puts `p`'s characters at `i`, `i + 1`, …. */
  lemma CharOfOccurrence(s: string, p: string, i: nat, k: nat)
    requires OccursAt(s, p, i) && i <= k < i + |p|
    ensures s[k] == p[k - i]
  {
    assert s[i..i + |p|][k - i] == s[k];
  }

  /**
    A pattern whose first character occurs nowhere else in it cannot occur
    at a position that lies strictly within an earlier stretch where that
    character is absent but is followed by a copy of the first character.
   */
  lemma NoOccurrenceOverlapping(s: string, p: string, j: nat, k: nat)
    requires |p| >= 1 && forall i :: 1 <= i < |p| ==> p[i] != p[0]
    requires j < k < j + |p| && k < |s| && s[k] == p[0]
    ensures !OccursAt(s, p, j)
  {
    if OccursAt(s, p, j) {
      CharOfOccurrence(s, p, j, k);
    }
  }

  /** A pattern without `c` does not occur across a position holding `c`. */
  lemma NoOccurrenceAcross(s: string, p: string, j: nat, k: nat, c: char)
    requires c !in p && j <= k < j + |p| && k < |s| && s[k] == c
    ensures !OccursAt(s, p, j)
  {
    if OccursAt(s, p, j) {
      CharOfOccurrence(s, p, j, k);
    }
  }

  /*
   * Splicing.
   */

  /** Just past the end of the line holding index `i`: `s.find("\n", i) + 1`, or `len(s)`. */
  function LineEnd(s: string, i: nat): (r: nat)
    ensures r <= |s|
    ensures (forall k :: i <= k < |s| ==> s[k] != '\n') ==> r == |s|
    ensures (exists k :: i <= k < |s| && s[k] == '\n') ==>
              i < r && s[r - 1] == '\n' && forall k :: i <= k < r - 1 ==> s[k] != '\n'
  {
    NewlineOccurrences(s);
    match FindFrom(s, "\n", i)
    case None => |s|
    case Some(k) => k + 1
  }

  /** "\n" occurs exactly where a newline stands. */
  lemma NewlineOccurrences(s: string)
    ensures forall k: nat :: OccursAt(s, "\n", k) <==> k < |s| && s[k] == '\n'
  {
    forall k: nat
      ensures OccursAt(s, "\n", k) <==> k < |s| && s[k] == '\n'
    {
      OccursAtChar(s, '\n', k);
    }
  }

  /**
    The block's end marker as written: the first end marker anywhere in the
    text, even one before the start marker.
   */
  function EndAsWritten(s: string, start: nat): Option<nat>
  {
    Find(s, EndMarker)
  }

  /** The block's end marker as intended: the first end marker at or after the start marker. */
  function EndAfter(s: string, start: nat): Option<nat>
  {
    FindFrom(s, EndMarker, start)
  }

  /**
    The new hook text for `existing` and hook content `c`, given how the end
    marker is located: a block is appended after the text stripped of
    trailing whitespace when there is no start marker; otherwise the text
    from the first start marker to the end of the end marker's line is
    replaced; None (nothing written, `False`) when no end marker is found.
   */
  function SpliceWith(existing: string, c: string, asWritten: bool): Option<string>
  {
    if !Contains(existing, StartMarker) then Some(RStrip(existing) + "\n" + Block(c))
    else
      var start := Find(existing, StartMarker).value;
      var end := if asWritten then EndAsWritten(existing, start) else EndAfter(existing, start);
      match end
      case None => None
      case Some(e) => Some(existing[..start] + Block(c) + existing[LineEnd(existing, e)..])
  }

  /** `add_or_update_hook_content` as written. */
  function AddOrUpdateAsWritten(existing: Option<string>, c: string): Option<string>
  {
    SpliceWith(if existing.Some? then existing.value else NewHookText, c, true)
  }

  /** `add_or_update_hook_content` with the end marker searched after the start marker. */
  function AddOrUpdateHookContent(existing: Option<string>, c: string): Option<string>
  {
    SpliceWith(if existing.Some? then existing.value else NewHookText, c, false)
  }

  /** A block for hook content `c` stands in `r` at index `a`. */
  predicate LaidOut(r: string, a: nat, c: string)
  {
    a + 53 + |c| <= |r|
    && r[a..a + 26] == StartMarker && r[a + 26] == '\n'
    && r[a + 27..a + 27 + |c|] == c && r[a + 27 + |c|] == '\n'
    && r[a + 28 + |c|..a + 52 + |c|] == EndMarker && r[a + 52 + |c|] == '\n'
  }

  /** Where the pieces of `pre + Block(c) + post` stand. */
  lemma BlockLayout(pre: string, c: string, post: string)
    ensures |Block(c)| == 53 + |c|
    ensures var r := pre + Block(c) + post;
            LaidOut(r, |pre|, c) && r[..|pre|] == pre && r[|pre| + 53 + |c|..] == post
  {
    var r := pre + Block(c) + post;
    var a, n := |pre|, |c|;
    var tail := "\n" + EndMarker + "\n" + post;
    BlockRegrouped(pre, c, post);
    BlockHead(pre, c, tail);
    BlockTail(post);
    SliceOfSuffix(r, a + 27 + n, tail, 1, 25);
    SliceOfSuffix(r, a + 27 + n, tail, 26, |tail|);
  }

  /** The pieces of `pre + StartMarker + "\n" + c + tail` up to the content's end. */
  lemma BlockHead(pre: string, c: string, tail: string)
    ensures var r := pre + StartMarker + "\n" + c + tail;
            var a, n := |pre|, |c|;
            && |r| == a + 27 + n + |tail|
            && r[..a] == pre && r[a..a + 26] == StartMarker && r[a + 26] == '\n'
            && r[a + 27..a + 27 + n] == c && r[a + 27 + n..] == tail
  {
    assert |StartMarker| == 26;
  }

  lemma BlockRegrouped(pre: string, c: string, post: string)
    ensures pre + Block(c) + post == pre + StartMarker + "\n" + c + ("\n" + EndMarker + "\n" + post)
  {
  }

  lemma BlockTail(post: string)
    ensures var tail := "\n" + EndMarker + "\n" + post;
            |tail| == 26 + |post| && tail[0] == '\n' && tail[1..25] == EndMarker && tail[25] == '\n' && tail[26..] == post
  {
    assert |EndMarker| == 24;
  }

  /** A slice of a suffix is a slice of the whole text. */
  lemma SliceOfSuffix(r: string, k: nat, tail: string, i: nat, j: nat)
    requires k <= |r| && r[k..] == tail && i <= j <= |tail|
    ensures r[k + i..k + j] == tail[i..j]
    ensures i < |tail| ==> r[k + i] == tail[i]
  {
    assert r[k + i..k + j] == r[k..][i..j];
  }

  /** The first start marker of a text whose earlier part holds none is the block's. */
  lemma BlockStartFirst(r: string, a: nat, c: string)
    requires LaidOut(r, a, c)
    requires forall j: nat :: j + 26 <= a ==> !OccursAt(r, StartMarker, j)
    ensures Find(r, StartMarker) == Some(a)
  {
    MarkerFacts();
    assert OccursAt(r, StartMarker, a);
    CharOfOccurrence(r, StartMarker, a, a);
    forall j: nat | a < j + 26 && j < a ensures !OccursAt(r, StartMarker, j) {
      NoOccurrenceOverlapping(r, StartMarker, j, a);
    }
  }

  /** No end marker starts on the block's start-marker line. */
  lemma NoEndOnStartLine(r: string, a: nat, c: string, j: nat)
    requires LaidOut(r, a, c) && a <= j <= a + 26
    ensures !OccursAt(r, EndMarker, j)
  {
    if OccursAt(r, EndMarker, j) {
      MarkerFacts();
      if j == a {
        CharOfOccurrence(r, StartMarker, a, a + 2);
        CharOfOccurrence(r, EndMarker, j, a + 2);
      } else if j < a + 26 {
        CharOfOccurrence(r, StartMarker, a, j);
        CharOfOccurrence(r, EndMarker, j, j);
      } else {
        CharOfOccurrence(r, EndMarker, j, j);
      }
    }
  }

  /** A slice of a stretch of `r` is the corresponding slice of `r`. */
  lemma SliceWithin(r: string, lo: nat, c: string, i: nat, n: nat)
    requires lo + |c| <= |r| && r[lo..lo + |c|] == c && i + n <= |c|
    ensures c[i..i + n] == r[lo + i..lo + i + n]
  {
    forall k | lo + i <= k < lo + i + n ensures r[k] == c[k - lo] {
      assert r[lo..lo + |c|][k - lo] == r[k];
    }
    assert c[i..i + n] == r[lo + i..lo + i + n];
  }

  /** No end marker starts within the block's content lines when the content holds none. */
  lemma NoEndInContent(r: string, a: nat, c: string, j: nat)
    requires LaidOut(r, a, c) && !Contains(c, EndMarker) && a + 27 <= j < a + 28 + |c|
    ensures !OccursAt(r, EndMarker, j)
  {
    if OccursAt(r, EndMarker, j) {
      MarkerFacts();
      if j + 24 <= a + 27 + |c| {
        var i := j - (a + 27);
        SliceWithin(r, a + 27, c, i, 24);
        assert OccursAt(c, EndMarker, i);
      } else {
        NoOccurrenceAcross(r, EndMarker, j, a + 27 + |c|, '\n');
      }
    }
  }

  /** Searching from the block's start, the first end marker is the block's own. */
  lemma BlockEndNext(r: string, a: nat, c: string)
    requires LaidOut(r, a, c) && !Contains(c, EndMarker)
    ensures FindFrom(r, EndMarker, a) == Some(a + 28 + |c|)
  {
    var e := a + 28 + |c|;
    assert OccursAt(r, EndMarker, e);
    forall j: nat | a <= j < e ensures !OccursAt(r, EndMarker, j) {
      if j <= a + 26 {
        NoEndOnStartLine(r, a, c, j);
      } else {
        NoEndInContent(r, a, c, j);
      }
    }
  }

  /** The end marker's line ends just past the block. */
  lemma BlockEndLine(r: string, a: nat, c: string)
    requires LaidOut(r, a, c)
    ensures LineEnd(r, a + 28 + |c|) == a + 53 + |c|
  {
    var e := a + 28 + |c|;
    MarkerFacts();
    OccursAtChar(r, '\n', e + 24);
    forall j: nat | e <= j < e + 24 ensures !OccursAt(r, "\n", j) {
      OccursAtChar(r, '\n', j);
      CharOfOccurrence(r, EndMarker, e, j);
    }
  }

  /** No occurrence of `p` lies wholly inside a prefix that does not contain it. */
  lemma FreeBefore(r: string, a: nat, p: string)
    requires a <= |r| && !Contains(r[..a], p)
    ensures forall j: nat :: j + |p| <= a ==> !OccursAt(r, p, j)
  {
    forall j: nat | j + |p| <= a ensures !OccursAt(r, p, j) {
      assert r[..a][j..j + |p|] == r[j..j + |p|];
      assert !OccursAt(r[..a], p, j);
    }
  }

  /**
    In `pre + Block(c) + post`, with no start marker in `pre` and no end
    marker in `c`, the search finds the block itself: its start marker first,
    its own end marker next, and the line end just past the block.
   */
  lemma LocateBlock(pre: string, c: string, post: string)
    requires !Contains(pre, StartMarker) && !Contains(c, EndMarker)
    ensures var r := pre + Block(c) + post;
            Find(r, StartMarker) == Some(|pre|)
            && EndAfter(r, |pre|) == Some(|pre| + 28 + |c|)
            && LineEnd(r, |pre| + 28 + |c|) == |pre| + |Block(c)|
  {
    LocateStart(pre, c, post);
    LocateEnd(pre, c, post);
    LocateLineEnd(pre, c, post);
  }

  lemma LocateStart(pre: string, c: string, post: string)
    requires !Contains(pre, StartMarker)
    ensures Find(pre + Block(c) + post, StartMarker) == Some(|pre|)
  {
    var r := pre + Block(c) + post;
    BlockLayout(pre, c, post);
    assert r[..|pre|] == pre;
    FreeBefore(r, |pre|, StartMarker);
    BlockStartFirst(r, |pre|, c);
  }

  lemma LocateEnd(pre: string, c: string, post: string)
    requires !Contains(c, EndMarker)
    ensures EndAfter(pre + Block(c) + post, |pre|) == Some(|pre| + 28 + |c|)
  {
    BlockLayout(pre, c, post);
    BlockEndNext(pre + Block(c) + post, |pre|, c);
  }

  lemma LocateLineEnd(pre: string, c: string, post: string)
    ensures LineEnd(pre + Block(c) + post, |pre| + 28 + |c|) == |pre| + |Block(c)|
  {
    BlockLayout(pre, c, post);
    BlockEndLine(pre + Block(c) + post, |pre|, c);
  }

  /** The block replaces an earlier one: the text before it and after it are kept verbatim. */
  lemma ReplaceKeepsSurroundings(pre: string, previous: string, post: string, c: string)
    requires !Contains(pre, StartMarker) && !Contains(previous, EndMarker)
    ensures AddOrUpdateHookContent(Some(pre + Block(previous) + post), c) == Some(pre + Block(c) + post)
  {
    var x := pre + Block(previous) + post;
    LocateBlock(pre, previous, post);
    BlockLayout(pre, previous, post);
    assert x[..|pre|] == pre;
    assert x[|pre| + |Block(previous)|..] == post;
  }

  /** With no start marker the block goes after the text stripped of trailing whitespace. */
  lemma AppendAfterStrippedText(x: string, c: string)
    requires !Contains(x, StartMarker)
    ensures AddOrUpdateHookContent(Some(x), c) == Some(RStrip(x) + "\n" + Block(c))
    ensures StartsWith(AddOrUpdateHookContent(Some(x), c).value, RStrip(x))
  {
    var r := RStrip(x) + "\n" + Block(c);
    assert r[..|RStrip(x)|] == RStrip(x);
  }

  /** The stripped text of a new hook file. */
  lemma NewHookTextFacts()
    ensures RStrip(NewHookText) == ShebangLine + "\nset -e"
    ensures !Contains(NewHookText, StartMarker)
  {
    NewHookTextStripped();
    NewHookTextUnmarked();
  }

  lemma NewHookTextStripped()
    ensures RStrip(NewHookText) == ShebangLine + "\nset -e"
  {
    var s := NewHookText;
    var s1, s2 := ShebangLine + "\nset -e\n", ShebangLine + "\nset -e";
    assert s[..|s| - 1] == s1 && IsSpace(s[|s| - 1]);
    assert s1[..|s1| - 1] == s2 && IsSpace(s1[|s1| - 1]);
    assert !IsSpace(s2[|s2| - 1]);
    assert RStrip(s) == RStrip(s1) == RStrip(s2) == s2;
  }

  lemma NewHookTextUnmarked()
    ensures !Contains(NewHookText, StartMarker)
  {
    var s := NewHookText;
    assert |s| == 28 && s[1] == '!' && s[2] == '/' && s[3] == 'u' && StartMarker[1] == ' ';
    forall j: nat | j + 26 <= |s| ensures !OccursAt(s, StartMarker, j) {
      Mismatch(s, StartMarker, j, j + 1);
    }
  }

  /** A mismatching character rules out an occurrence. */
  lemma Mismatch(s: string, p: string, j: nat, k: nat)
    requires j <= k < j + |p| && k < |s| && s[k] != p[k - j]
    ensures !OccursAt(s, p, j)
  {
    if OccursAt(s, p, j) {
      CharOfOccurrence(s, p, j, k);
    }
  }

  /** A new hook file is the shebang line, `set -e`, one newline, and the block. */
  lemma NewHookContent(c: string)
    ensures AddOrUpdateHookContent(None, c) == Some(ShebangLine + "\nset -e" + "\n" + Block(c))
  {
    NewHookTextFacts();
  }

  /** A start marker without an end marker after it leaves the hook as it is. */
  lemma UnterminatedBlockRefused(x: string, c: string)
    requires Contains(x, StartMarker) && EndAfter(x, Find(x, StartMarker).value).None?
    ensures AddOrUpdateHookContent(Some(x), c).None?
  {
  }

  /** Updating twice with the same marker-free content changes nothing the second time. */
  lemma AddOrUpdateIdempotent(existing: Option<string>, c: string)
    requires !Contains(c, EndMarker)
    requires AddOrUpdateHookContent(existing, c).Some?
    ensures var r := AddOrUpdateHookContent(existing, c).value;
            AddOrUpdateHookContent(Some(r), c) == Some(r)
  {
    var x := if existing.Some? then existing.value else NewHookText;
    var r := AddOrUpdateHookContent(existing, c).value;
    if !Contains(x, StartMarker) {
      var pre := RStrip(x) + "\n";
      FreePrefix(x, RStrip(x), StartMarker);
      FreeAppendNewline(RStrip(x), StartMarker);
      assert r == pre + Block(c) + "";
      ReplaceKeepsSurroundings(pre, c, "", c);
    } else {
      var start := Find(x, StartMarker).value;
      var e := EndAfter(x, start).value;
      var pre, post := x[..start], x[LineEnd(x, e)..];
      if existing.None? {
        NewHookTextFacts();
      }
      FirstOccurrencePrefixFree(x, StartMarker);
      assert r == pre + Block(c) + post;
      ReplaceKeepsSurroundings(pre, c, post, c);
    }
  }

  /** The text before the first occurrence holds no occurrence. */
  lemma FirstOccurrencePrefixFree(x: string, p: string)
    requires Contains(x, p) && p != []
    ensures !Contains(x[..Find(x, p).value], p)
  {
    var start := Find(x, p).value;
    forall j: nat | j + |p| <= start ensures !OccursAt(x[..start], p, j) {
      assert x[..start][j..j + |p|] == x[j..j + |p|];
      assert !OccursAt(x, p, j);
    }
  }

  /** A prefix of a text free of `p` is free of it. */
  lemma FreePrefix(x: string, y: string, p: string)
    requires !Contains(x, p) && |y| <= |x| && y == x[..|y|]
    ensures !Contains(y, p)
  {
    forall j: nat ensures !OccursAt(y, p, j) {
      if OccursAt(y, p, j) {
        assert y[j..j + |p|] == x[j..j + |p|];
        assert OccursAt(x, p, j);
      }
    }
  }

  /** Appending a newline adds no occurrence of a newline-free pattern. */
  lemma FreeAppendNewline(y: string, p: string)
    requires !Contains(y, p) && '\n' !in p && p != []
    ensures !Contains(y + "\n", p)
  {
    var z := y + "\n";
    forall j: nat ensures !OccursAt(z, p, j) {
      if OccursAt(z, p, j) {
        if j + |p| <= |y| {
          assert z[j..j + |p|] == y[j..j + |p|];
          assert OccursAt(y, p, j);
        } else {
          NoOccurrenceAcross(z, p, j, |y|, '\n');
        }
      }
    }
  }

  /*
   * Removal.
   */

  /** The characters the backward scan steps over. */
  predicate IsBlank(ch: char)
  {
    ch == '\n' || ch == ' ' || ch == '\t'
  }

  /**
    Where the removed span starts for a block at `i`: step back over blanks,
    stopping after the newline that ends a blank line.
   */
  function BackOver(s: string, i: nat): (r: nat)
    requires i <= |s|
    ensures r <= i
    ensures forall k :: r <= k < i ==> IsBlank(s[k])
    ensures r == i ==> i == 0 || !IsBlank(s[i - 1])
    ensures r < i ==> (s[r] == '\n' && (r == 0 || s[r - 1] == '\n')) || r == 0 || !IsBlank(s[r - 1])
    decreases i
  {
    if i > 0 && IsBlank(s[i - 1]) then
      if s[i - 1] == '\n' && (i - 1 == 0 || s[i - 2] == '\n') then i - 1 else BackOver(s, i - 1)
    else i
  }

  /** The stripped texts that mean only a shebang (and `set -e`) is left. */
  const ShebangOnly: set<string> :=
    {"#!/usr/bin/env bash", "#!/usr/bin/env bash\nset -e", "#!/bin/bash", "#!/bin/bash\nset -e"}

  /** What removal does to the hook file. */
  datatype Removal =
    | NoBlock      // file missing or no start marker: `False`
    | Malformed    // start marker without end marker: `False`
    | Deleted      // only a shebang is left: the file is removed, `True`
    | Rewritten(content: string)   // the rest is written back, `True`

  /** `remove_pyci_check_block`'s answer. */
  predicate Removed(r: Removal)
  {
    r.Deleted? || r.Rewritten?
  }

  /**
    The text left once the block is cut out, given how the end marker is
    located: from the blank run before the start marker through the end of
    the end marker's line; None when no end marker is found.
   */
  function CutBlock(s: string, asWritten: bool): Option<string>
    requires Contains(s, StartMarker)
  {
    var start := Find(s, StartMarker).value;
    var end := if asWritten then EndAsWritten(s, start) else EndAfter(s, start);
    match end
    case None => None
    case Some(e) => Some(s[..BackOver(s, start)] + s[LineEnd(s, e)..])
  }

  /** The removal, given how the end marker is located. */
  function RemovalWith(content: Option<string>, asWritten: bool): Removal
  {
    if content.None? || !Contains(content.value, StartMarker) then NoBlock
    else
      match CutBlock(content.value, asWritten)
      case None => Malformed
      case Some(rest) => Verdict(rest)
  }

  /** What is left once the block is cut out: nothing but a shebang means the file goes. */
  function Verdict(rest: string): Removal
  {
    if Strip(rest) in ShebangOnly then Deleted else Rewritten(rest)
  }

  /** `remove_pyci_check_block` as written. */
  function RemovalAsWritten(content: Option<string>): Removal
  {
    RemovalWith(content, true)
  }

  /** `remove_pyci_check_block` with the end marker searched after the start marker. */
  function RemovalOf(content: Option<string>): Removal
  {
    RemovalWith(content, false)
  }

  /**
    The backward scan from index `i` over newlines, spaces and tabs, which
    stops once it has stepped onto the newline that ends a blank line.
   */
  method ScanBackOverBlanks(s: string, i: nat) returns (j: nat)
    requires i <= |s|
    ensures j == BackOver(s, i)
  {
    j := i;
    while j > 0 && IsBlank(s[j - 1])
      invariant j <= i
      invariant BackOver(s, j) == BackOver(s, i)
      decreases j
    {
      j := j - 1;
      if s[j] == '\n' && (j == 0 || s[j - 1] == '\n') {
        break;
      }
    }
  }

  /**
    `remove_pyci_check_block`: locate the block, scan back from its start
    marker over blank characters, cut out the span, and decide between
    deleting and rewriting the file.
   */
  method RemovePyciCheckBlock(content: Option<string>) returns (r: Removal)
    ensures r == RemovalOf(content)
    ensures Removed(r) <==> content.Some? && Contains(content.value, StartMarker)
                            && EndAfter(content.value, Find(content.value, StartMarker).value).Some?
  {
    if content.None? {
      return NoBlock;
    }
    var s := content.value;
    var found := Find(s, StartMarker);
    if found.None? {
      return NoBlock;
    }
    var startIdx := found.value;
    var endIdx := FindFrom(s, EndMarker, startIdx);
    if endIdx.None? {
      return Malformed;
    }
    var endLineEnd := LineEnd(s, endIdx.value);
    var startLineStart := ScanBackOverBlanks(s, startIdx);
    var rest := s[..startLineStart] + s[endLineEnd..];
    if Strip(rest) in ShebangOnly {
      r := Deleted;
    } else {
      r := Rewritten(rest);
    }
  }

  /** The backward scan looks only at the characters before where it starts. */
  lemma {:induction false} BackOverLooksBack(s: string, t: string, i: nat)
    requires i <= |s| && i <= |t| && s[..i] == t[..i]
    ensures BackOver(s, i) == BackOver(t, i)
    decreases i
  {
    if i > 0 {
      assert s[i - 1] == s[..i][i - 1] && t[i - 1] == t[..i][i - 1];
      if i > 1 {
        assert s[i - 2] == s[..i][i - 2] && t[i - 2] == t[..i][i - 2];
      }
      assert s[..i - 1] == s[..i][..i - 1] && t[..i - 1] == t[..i][..i - 1];
      BackOverLooksBack(s, t, i - 1);
    }
  }

  /** The searches for a block laid out at `a` after text holding no start marker. */
  lemma LocateLaidOut(r: string, a: nat, c: string)
    requires LaidOut(r, a, c) && !Contains(r[..a], StartMarker) && !Contains(c, EndMarker)
    ensures Find(r, StartMarker) == Some(a)
    ensures EndAfter(r, a) == Some(a + 28 + |c|)
    ensures LineEnd(r, a + 28 + |c|) == a + 53 + |c|
  {
    FreeBefore(r, a, StartMarker);
    BlockStartFirst(r, a, c);
    BlockEndNext(r, a, c);
    BlockEndLine(r, a, c);
  }

  /** The cut for a block whose markers were found at `start` and `e`. */
  lemma CutAt(r: string, start: nat, e: nat)
    requires Find(r, StartMarker) == Some(start) && EndAfter(r, start) == Some(e)
    ensures Contains(r, StartMarker) && CutBlock(r, false) == Some(r[..BackOver(r, start)] + r[LineEnd(r, e)..])
  {
  }

  /**
    Removal cuts out exactly the block and the blank run before it, down to
    the newline that ends a blank line; the text after the block is kept.
   */
  lemma RemoveCutsBlock(r: string, a: nat, c: string)
    requires LaidOut(r, a, c) && !Contains(r[..a], StartMarker) && !Contains(c, EndMarker)
    ensures Contains(r, StartMarker)
    ensures CutBlock(r, false) == Some(r[..BackOver(r, a)] + r[a + 53 + |c|..])
  {
    LocateLaidOut(r, a, c);
    CutAt(r, a, a + 28 + |c|);
  }

  /** Behind a newline that follows a non-blank character, the scan stops at that newline. */
  lemma BackOverNewlineAfter(y: string)
    requires y == [] || !IsBlank(y[|y| - 1])
    ensures BackOver(y + "\n", |y| + 1) == |y|
  {
    var pre := y + "\n";
    if y != [] {
      assert pre[|y| - 1] == y[|y| - 1];
    }
  }

  /** Cutting a block that follows `y` and a newline, with nothing after it, leaves `y`. */
  lemma CutAfterText(r: string, y: string, c: string)
    requires LaidOut(r, |y| + 1, c) && r[..|y| + 1] == y + "\n" && |r| == |y| + 54 + |c|
    requires !Contains(y + "\n", StartMarker) && !Contains(c, EndMarker)
    requires y == [] || !IsBlank(y[|y| - 1])
    ensures Contains(r, StartMarker) && CutBlock(r, false) == Some(y)
  {
    RemoveCutsBlock(r, |y| + 1, c);
    BackOverLooksBack(r, y + "\n", |y| + 1);
    BackOverNewlineAfter(y);
    assert BackOver(r, |y| + 1) == |y|;
    assert r[..|y|] == r[..|y| + 1][..|y|] == y;
    assert r[|y| + 54 + |c|..] == [];
    assert r[..|y|] + r[|y| + 54 + |c|..] == y;
  }

  /** Cutting the block just appended leaves the text stripped of trailing whitespace. */
  lemma CutUndoesAppend(x: string, c: string)
    requires !Contains(x, StartMarker) && !Contains(c, EndMarker)
    ensures var r := AddOrUpdateHookContent(Some(x), c);
            r.Some? && Contains(r.value, StartMarker) && CutBlock(r.value, false) == Some(RStrip(x))
  {
    var y := RStrip(x);
    var pre := y + "\n";
    AppendAfterStrippedText(x, c);
    assert pre + Block(c) + "" == y + "\n" + Block(c);
    BlockLayout(pre, c, "");
    FreePrefix(x, y, StartMarker);
    FreeAppendNewline(y, StartMarker);
    CutAfterText(pre + Block(c) + "", y, c);
  }

  /** Removing the block just appended gives back the text stripped of trailing whitespace. */
  lemma RemoveUndoesAppend(x: string, c: string)
    requires !Contains(x, StartMarker) && !Contains(c, EndMarker)
    ensures AddOrUpdateHookContent(Some(x), c).Some?
    ensures RemovalOf(AddOrUpdateHookContent(Some(x), c)) == Verdict(RStrip(x))
  {
    CutUndoesAppend(x, c);
    RemovalOfCut(AddOrUpdateHookContent(Some(x), c).value, RStrip(x));
  }

  /** Removal from a text whose block cuts out to `rest`. */
  lemma RemovalOfCut(s: string, rest: string)
    requires Contains(s, StartMarker) && CutBlock(s, false) == Some(rest)
    ensures RemovalOf(Some(s)) == Verdict(rest)
  {
  }

  /** Installing into a missing hook file and then uninstalling deletes the file. */
  lemma InstallThenUninstall(c: string)
    requires !Contains(c, EndMarker)
    ensures RemovalOf(AddOrUpdateHookContent(None, c)) == Deleted
  {
    NewHookTextFacts();
    RemoveUndoesAppend(NewHookText, c);
    ShebangAndSetDeleted();
  }

  /** A hook left with just the shebang line and `set -e` is deleted. */
  lemma ShebangAndSetDeleted()
    ensures Verdict(ShebangLine + "\nset -e") == Deleted
  {
    var s2 := ShebangLine + "\nset -e";
    assert s2 == "#!/usr/bin/env bash\nset -e";
    assert !IsSpace(s2[|s2| - 1]) && !IsSpace(s2[0]);
    assert RStrip(s2) == s2;
    assert LStrip(s2) == s2;
    assert s2 in ShebangOnly;
  }

  /*
   * An end marker before the start marker.
   */

  /** A hook holding the end marker on the line above the start marker. */
  const EndThenStart := EndMarker + "\n" + StartMarker + "\n"

  /** Where the searches land in `EndThenStart`. */
  lemma EndThenStartSearches()
    ensures Find(EndThenStart, StartMarker) == Some(25)
    ensures Find(EndThenStart, EndMarker) == Some(0)
    ensures FindFrom(EndThenStart, EndMarker, 25) == None
    ensures LineEnd(EndThenStart, 0) == 25
    ensures BackOver(EndThenStart, 25) == 24
  {
    var x := EndThenStart;
    MarkerFacts();
    assert |x| == 52;
    assert x[25..51] == StartMarker && x[..24] == EndMarker && x[24] == '\n';
    assert OccursAt(x, StartMarker, 25);
    CharOfOccurrence(x, StartMarker, 25, 25);
    forall j: nat | j < 25 ensures !OccursAt(x, StartMarker, j) {
      NoOccurrenceOverlapping(x, StartMarker, j, 25);
    }
    assert OccursAt(x, EndMarker, 0);
    forall j: nat | 25 <= j ensures !OccursAt(x, EndMarker, j) {
      if OccursAt(x, EndMarker, j) {
        if j == 25 {
          CharOfOccurrence(x, StartMarker, 25, 27);
          CharOfOccurrence(x, EndMarker, j, 27);
        } else {
          CharOfOccurrence(x, StartMarker, 25, j);
          CharOfOccurrence(x, EndMarker, j, j);
        }
      }
    }
    OccursAtChar(x, '\n', 24);
    forall j: nat | j < 24 ensures !OccursAt(x, "\n", j) {
      OccursAtChar(x, '\n', j);
      CharOfOccurrence(x, EndMarker, 0, j);
    }
    assert x[23] == EndMarker[23];
  }

  /** The two halves of `EndThenStart`, and what is left when its newline at 24 is dropped. */
  lemma EndThenStartParts()
    ensures EndThenStart[..25] == EndMarker + "\n" && EndThenStart[25..] == StartMarker + "\n"
    ensures EndThenStart[..24] + EndThenStart[25..] == EndMarker + StartMarker + "\n"
  {
  }

  /** The as-written update of a text whose first start and end markers are at `start` and `e`. */
  lemma AddOrUpdateAsWrittenAt(s: string, c: string, start: nat, e: nat)
    requires Find(s, StartMarker) == Some(start) && Find(s, EndMarker) == Some(e)
    ensures AddOrUpdateAsWritten(Some(s), c) == Some(s[..start] + Block(c) + s[LineEnd(s, e)..])
  {
  }

  /** The as-written removal from a text whose first start and end markers are at `start` and `e`. */
  lemma RemovalAsWrittenAt(s: string, start: nat, e: nat)
    requires Find(s, StartMarker) == Some(start) && Find(s, EndMarker) == Some(e)
    ensures RemovalAsWritten(Some(s)) == Verdict(s[..BackOver(s, start)] + s[LineEnd(s, e)..])
  {
  }

  /** A block followed by a line starting with the start marker puts two start markers in the text. */
  lemma TwoStartMarkers(pre: string, c: string, tail: string)
    requires StartsWith(tail, StartMarker)
    ensures OccursAt(pre + Block(c) + tail, StartMarker, |pre|)
    ensures OccursAt(pre + Block(c) + tail, StartMarker, |pre| + |Block(c)|)
  {
    var r := pre + Block(c) + tail;
    BlockLayout(pre, c, tail);
    assert r[|pre| + |Block(c)|..][..26] == r[|pre| + |Block(c)|..|pre| + |Block(c)| + 26];
  }

  /**
    As written, updating such a hook inserts a second block before the old
    start marker, leaving two start markers in the file.
   */
  lemma EndBeforeStartAddsSecondBlock(c: string)
    ensures AddOrUpdateAsWritten(Some(EndThenStart), c)
            == Some(EndMarker + "\n" + Block(c) + (StartMarker + "\n"))
    ensures var r := AddOrUpdateAsWritten(Some(EndThenStart), c).value;
            OccursAt(r, StartMarker, 25) && OccursAt(r, StartMarker, 25 + |Block(c)|)
  {
    EndThenStartSearches();
    AddOrUpdateAsWrittenAt(EndThenStart, c, 25, 0);
    EndThenStartParts();
    TwoStartMarkers(EndMarker + "\n", c, StartMarker + "\n");
  }

  /** What is left of `EndThenStart` is not a bare shebang. */
  lemma EndStartRewritten()
    ensures Verdict(EndMarker + StartMarker + "\n") == Rewritten(EndMarker + StartMarker + "\n")
    ensures OccursAt(EndMarker + StartMarker + "\n", StartMarker, 24)
  {
    var rest := EndMarker + StartMarker + "\n";
    var stripped := EndMarker + StartMarker;
    assert |rest| == 51 && rest[..50] == stripped && IsSpace(rest[50]);
    assert RStrip(rest) == RStrip(stripped);
    assert !IsSpace(stripped[49]) && !IsSpace(stripped[0]);
    assert RStrip(stripped) == stripped && LStrip(stripped) == stripped;
    assert |Strip(rest)| == 50;
    assert rest[24..50] == StartMarker;
  }

  /**
    As written, removal from such a hook reports success yet writes back a
    text that still holds the start marker.
   */
  lemma EndBeforeStartRemovalKeepsStart()
    ensures RemovalAsWritten(Some(EndThenStart)) == Rewritten(EndMarker + StartMarker + "\n")
    ensures Removed(RemovalAsWritten(Some(EndThenStart)))
    ensures OccursAt(RemovalAsWritten(Some(EndThenStart)).content, StartMarker, 24)
  {
    EndThenStartSearches();
    RemovalAsWrittenAt(EndThenStart, 25, 0);
    EndThenStartParts();
    EndStartRewritten();
  }

  /** With the end marker searched after the start marker, such a hook is left as it is. */
  lemma EndBeforeStartRefused(c: string)
    ensures AddOrUpdateHookContent(Some(EndThenStart), c).None?
    ensures RemovalOf(Some(EndThenStart)) == Malformed
  {
    EndThenStartSearches();
  }

  /*
   * When the search as written agrees with the intended one.
   */

  /** Every end marker in `x` stands at or after its first start marker. */
  ghost predicate NoStrayEnd(x: string)
  {
    forall j: nat :: OccursAt(x, EndMarker, j) ==> Contains(x, StartMarker) && Find(x, StartMarker).value <= j
  }

  /** A text without an end marker holds no stray one. */
  lemma NoEndNoStray(x: string)
    requires !Contains(x, EndMarker)
    ensures NoStrayEnd(x)
  {
  }

  /** With no occurrence before `start`, the first occurrence is the first one from `start` on. */
  lemma FindSkipsFree(x: string, p: string, start: nat)
    requires forall j: nat :: j < start ==> !OccursAt(x, p, j)
    ensures Find(x, p) == FindFrom(x, p, start)
  {
    var f, g := Find(x, p), FindFrom(x, p, start);
    if g.Some? {
      assert g.value <= |x|;
      assert Contains(x, p);
      assert f.value == g.value by {
        assert OccursAt(x, p, f.value);
        assert start <= f.value;
      }
    }
  }

  /**
    Without a stray end marker, the source's search for the end marker (from
    the start of the text) finds the one after the start marker.
   */
  lemma EndSearchesAgree(x: string)
    requires Contains(x, StartMarker) && NoStrayEnd(x)
    ensures EndAsWritten(x, Find(x, StartMarker).value) == EndAfter(x, Find(x, StartMarker).value)
  {
    FindSkipsFree(x, EndMarker, Find(x, StartMarker).value);
  }

  /**
    Without a stray end marker, the update and the removal as written do
    exactly what the intended search does.
   */
  lemma AsWrittenAgrees(x: string, c: string)
    requires NoStrayEnd(x)
    ensures AddOrUpdateAsWritten(Some(x), c) == AddOrUpdateHookContent(Some(x), c)
    ensures RemovalAsWritten(Some(x)) == RemovalOf(Some(x))
  {
    if Contains(x, StartMarker) {
      EndSearchesAgree(x);
    }
  }

  /** As written, a start marker with no end marker anywhere refuses both the update and the removal. */
  lemma UnterminatedBlockRefusedAsWritten(x: string, c: string)
    requires Contains(x, StartMarker) && !Contains(x, EndMarker)
    ensures AddOrUpdateAsWritten(Some(x), c).None?
    ensures RemovalAsWritten(Some(x)) == Malformed
  {
  }

  /** A block laid out after text free of both markers is found first, and no end marker precedes it. */
  lemma NoStrayEndLaidOut(r: string, a: nat, c: string)
    requires LaidOut(r, a, c) && !Contains(r[..a], StartMarker) && !Contains(r[..a], EndMarker)
    ensures Find(r, StartMarker) == Some(a)
    ensures NoStrayEnd(r)
  {
    FreeBefore(r, a, StartMarker);
    BlockStartFirst(r, a, c);
    FreeBefore(r, a, EndMarker);
    forall j: nat | OccursAt(r, EndMarker, j) ensures a <= j {
      if j < a {
        if j + 24 > a {
          MarkerFacts();
          CharOfOccurrence(r, StartMarker, a, a);
          NoOccurrenceOverlapping(r, EndMarker, j, a);
        }
      }
    }
  }

  /** The text before the block holds no end marker when the text it came from had no stray one. */
  lemma PrefixHoldsNoEnd(x: string, start: nat)
    requires NoStrayEnd(x) && Contains(x, StartMarker) && start == Find(x, StartMarker).value
    ensures !Contains(x[..start], EndMarker)
  {
    forall j: nat | OccursAt(x[..start], EndMarker, j) ensures false {
      assert x[..start][j..j + 24] == x[j..j + 24];
      assert OccursAt(x, EndMarker, j);
    }
  }

  /** A successful intended update of a text without a stray end marker leaves none. */
  lemma UpdateLeavesNoStrayEnd(x: string, c: string)
    requires NoStrayEnd(x) && !Contains(c, EndMarker)
    requires AddOrUpdateHookContent(Some(x), c).Some?
    ensures NoStrayEnd(AddOrUpdateHookContent(Some(x), c).value)
  {
    var r := AddOrUpdateHookContent(Some(x), c).value;
    var pre, post;
    if !Contains(x, StartMarker) {
      var y := RStrip(x);
      assert !Contains(x, EndMarker);
      FreePrefix(x, y, StartMarker);
      FreePrefix(x, y, EndMarker);
      FreeAppendNewline(y, StartMarker);
      MarkerFacts();
      FreeAppendNewline(y, EndMarker);
      pre, post := y + "\n", "";
    } else {
      var start := Find(x, StartMarker).value;
      var e := EndAfter(x, start).value;
      FirstOccurrencePrefixFree(x, StartMarker);
      PrefixHoldsNoEnd(x, start);
      pre, post := x[..start], x[LineEnd(x, e)..];
    }
    assert r == pre + Block(c) + post;
    BlockLayout(pre, c, post);
    NoStrayEndLaidOut(r, |pre|, c);
  }

  /** As written, the block replaces an earlier one when no end marker stands before it. */
  lemma ReplaceKeepsSurroundingsAsWritten(pre: string, previous: string, post: string, c: string)
    requires !Contains(pre, StartMarker) && !Contains(pre, EndMarker) && !Contains(previous, EndMarker)
    ensures AddOrUpdateAsWritten(Some(pre + Block(previous) + post), c) == Some(pre + Block(c) + post)
  {
    var x := pre + Block(previous) + post;
    BlockLayout(pre, previous, post);
    NoStrayEndLaidOut(x, |pre|, previous);
    AsWrittenAgrees(x, c);
    ReplaceKeepsSurroundings(pre, previous, post, c);
  }

  /** As written, updating twice changes nothing the second time when the hook holds no stray end marker. */
  lemma AddOrUpdateIdempotentAsWritten(existing: Option<string>, c: string)
    requires !Contains(c, EndMarker)
    requires existing.Some? ==> NoStrayEnd(existing.value)
    requires AddOrUpdateAsWritten(existing, c).Some?
    ensures var r := AddOrUpdateAsWritten(existing, c).value;
            AddOrUpdateAsWritten(Some(r), c) == Some(r)
  {
    var x := if existing.Some? then existing.value else NewHookText;
    if existing.None? {
      NewHookTextNoEnd();
      NoEndNoStray(NewHookText);
    }
    AsWrittenAgrees(x, c);
    var r := AddOrUpdateHookContent(Some(x), c).value;
    AddOrUpdateIdempotent(Some(x), c);
    UpdateLeavesNoStrayEnd(x, c);
    AsWrittenAgrees(r, c);
  }

  lemma NewHookTextNoEnd()
    ensures !Contains(NewHookText, EndMarker)
  {
    var s := NewHookText;
    assert |s| == 28 && s[1] == '!' && s[2] == '/' && s[3] == 'u' && s[4] == 's' && s[5] == 'r';
    assert EndMarker[1] == ' ';
    forall j: nat | j + 24 <= |s| ensures !OccursAt(s, EndMarker, j) {
      Mismatch(s, EndMarker, j, j + 1);
    }
  }

  /** As written, the block's cut when no end marker stands before the block is the intended one. */
  lemma RemoveCutsBlockAsWritten(r: string, a: nat, c: string)
    requires LaidOut(r, a, c) && !Contains(r[..a], StartMarker) && !Contains(r[..a], EndMarker)
    requires !Contains(c, EndMarker)
    ensures Contains(r, StartMarker)
    ensures CutBlock(r, true) == Some(r[..BackOver(r, a)] + r[a + 53 + |c|..])
  {
    NoStrayEndLaidOut(r, a, c);
    EndSearchesAgree(r);
    RemoveCutsBlock(r, a, c);
  }

  /**
    As written, removing the block just appended to a hook free of both
    markers gives back the text stripped of trailing whitespace.
   */
  lemma RemoveUndoesAppendAsWritten(x: string, c: string)
    requires !Contains(x, StartMarker) && !Contains(x, EndMarker) && !Contains(c, EndMarker)
    ensures AddOrUpdateAsWritten(Some(x), c) == AddOrUpdateHookContent(Some(x), c)
    ensures AddOrUpdateAsWritten(Some(x), c).Some?
    ensures RemovalAsWritten(AddOrUpdateAsWritten(Some(x), c)) == Verdict(RStrip(x))
  {
    NoEndNoStray(x);
    AsWrittenAgrees(x, c);
    RemoveUndoesAppend(x, c);
    var r := AddOrUpdateHookContent(Some(x), c).value;
    UpdateLeavesNoStrayEnd(x, c);
    AsWrittenAgrees(r, c);
  }

  /** As written, installing into a missing hook file and then uninstalling deletes the file. */
  lemma InstallThenUninstallAsWritten(c: string)
    requires !Contains(c, EndMarker)
    ensures RemovalAsWritten(AddOrUpdateAsWritten(None, c)) == Deleted
  {
    var r := AddOrUpdateAsWritten(None, c);
    assert r == AddOrUpdateAsWritten(Some(NewHookText), c);
    NewHookTextFacts();
    NewHookTextNoEnd();
    RemoveUndoesAppendAsWritten(NewHookText, c);
    assert RemovalAsWritten(r) == Verdict(ShebangLine + "\nset -e");
    ShebangAndSetDeleted();
  }

  /*
   * File lists from git.
   */

  /** The names kept from `git diff --name-only` output lines: those ending in ".py". */
  function PythonNames(lines: seq<string>): (r: seq<string>)
    ensures forall f :: f in r <==> f in lines && EndsWith(f, ".py") && f != ""
    ensures |r| <= |lines|
  {
    if lines == [] then []
    else
      var rest := PythonNames(lines[1..]);
      assert forall f :: f in lines <==> f == lines[0] || f in lines[1..];
      if EndsWith(lines[0], ".py") && lines[0] != "" then [lines[0]] + rest else rest
  }

  /** The Python files named in the output of a git command, one per line. */
  function PythonFilesIn(stdout: string): (r: seq<string>)
    ensures forall f :: f in r ==> EndsWith(f, ".py") && '\n' !in f
  {
    var lines := Split(Strip(stdout), '\n');
    assert forall f :: f in lines ==> '\n' !in f;
    PythonNames(lines)
  }

  /**
    A git command: either it finished, with its exit status and its standard
    output, or starting it or decoding its output raised (`/usr/bin/git`
    missing or not executable, output that is not UTF-8), which no handler
    here catches.
   */
  datatype GitRun = Finished(returnCode: int, stdout: string) | Raised

  /**
    `get_staged_python_files`: a failing `git diff --cached` gives no files;
    `None` when the run raised, the exception leaving the function.
   */
  function StagedPythonFiles(run: GitRun): (r: Option<seq<string>>)
    ensures run.Raised? <==> r.None?
    ensures run.Finished? && run.returnCode != 0 ==> r == Some([])
    ensures run.Finished? && run.returnCode == 0 ==>
              r.Some? && forall f :: f in r.value <==> f in Split(Strip(run.stdout), '\n') && EndsWith(f, ".py") && f != ""
  {
    match run
    case Raised => None
    case Finished(code, out) => if code != 0 then Some([]) else Some(PythonFilesIn(out))
  }

  /**
    `get_changed_python_files`: the diff against the remote branch, or, when
    that fails, the diff against the previous commit; no files when both fail,
    and `None` when the run that decides raised.
   */
  function ChangedPythonFiles(first: GitRun, fallback: GitRun): (r: Option<seq<string>>)
    ensures first.Raised? ==> r.None?
    ensures first.Finished? && first.returnCode == 0 ==> r == StagedPythonFiles(first)
    ensures first.Finished? && first.returnCode != 0 ==> r == StagedPythonFiles(fallback)
    ensures first.Finished? && first.returnCode != 0 && fallback.Finished? && fallback.returnCode != 0 ==> r == Some([])
    ensures r.None? <==> first.Raised? || (first.returnCode != 0 && fallback.Raised?)
  {
    match first
    case Raised => None
    case Finished(code, out) => if code != 0 then StagedPythonFiles(fallback) else Some(PythonFilesIn(out))
  }
}

