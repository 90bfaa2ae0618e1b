/**
  The module-name guard of the execution resolver: a dotted sequence of
  identifiers `[A-Za-z_][A-Za-z0-9_]*`, recognised character by character.
 */
module ModuleNames {
  import opened Strings

  predicate IsIdentStart(c: char) {
    ('a' <= c <= 'z') || ('A' <= c <= 'Z') || c == '_'
  }

  predicate IsIdentChar(c: char) {
    IsIdentStart(c) || ('0' <= c <= '9')
  }

  /** All characters may continue an identifier. */
  predicate AllIdentChars(w: string) {
    forall i :: 0 <= i < |w| ==> IsIdentChar(w[i])
  }

  /** One segment: non-empty, starting with a letter or "_". */
  predicate IsIdentifier(w: string) {
    |w| >= 1 && IsIdentStart(w[0]) && AllIdentChars(w[1..])
  }

  predicate AllIdentifiers(parts: seq<string>) {
    forall i :: 0 <= i < |parts| ==> IsIdentifier(parts[i])
  }

  /** The reference definition: every "."-separated part is an identifier. */
  predicate IsDottedName(s: string) {
    AllIdentifiers(Split(s, '.'))
  }

  /**
    The recogniser. `inSegment` is false before the first character of a
    segment (at the start and after each ".") and true inside a segment;
    the input is accepted when it ends inside a segment.
   */
  function Scan(s: string, inSegment: bool): bool
    decreases |s|
  {
    if s == [] then inSegment
    else if s[0] == '.' then inSegment && Scan(s[1..], false)
    else if inSegment then IsIdentChar(s[0]) && Scan(s[1..], true)
    else IsIdentStart(s[0]) && Scan(s[1..], true)
  }

  /** The whole name matches the pattern. */
  predicate Accepts(s: string) {
    Scan(s, false)
  }

  /**
    The two states of the recogniser against the split of the rest of the
    input: at a segment start the parts must all be identifiers; inside a
    segment the first part only continues the identifier already begun.
   */
  lemma {:induction false} ScanMeansSplit(s: string)
    ensures Scan(s, false) <==> AllIdentifiers(Split(s, '.'))
    ensures Scan(s, true) <==> AllIdentChars(Split(s, '.')[0]) && AllIdentifiers(Split(s, '.')[1..])
    decreases |s|
  {
    if s != [] {
      ScanMeansSplit(s[1..]);
      var rest := Split(s[1..], '.');
      if s[0] == '.' {
        assert Split(s, '.') == [""] + rest;
        assert Split(s, '.')[1..] == rest;
        assert !IsIdentifier("");
      } else {
        var parts := Split(s, '.');
        assert parts == [[s[0]] + rest[0]] + rest[1..];
        assert parts[0][1..] == rest[0];
        assert parts[1..] == rest[1..];
        if AllIdentifiers(parts) {
          assert IsIdentifier(parts[0]);
          forall i | 1 <= i < |rest| ensures IsIdentifier(rest[i]) {
            assert rest[i] == parts[i];
          }
        }
        if Scan(s, false) {
          assert IsIdentifier(parts[0]);
          forall i | 0 <= i < |parts| ensures IsIdentifier(parts[i]) {
            if i > 0 {
              assert parts[i] == rest[1..][i - 1];
            }
          }
        }
        if AllIdentChars(parts[0]) {
          assert AllIdentChars(rest[0]) by {
            forall i | 0 <= i < |rest[0]| ensures IsIdentChar(rest[0][i]) {
              assert rest[0][i] == parts[0][i + 1];
            }
          }
        }
        if Scan(s, true) {
          assert AllIdentChars(parts[0]) by {
            forall i | 0 <= i < |parts[0]| ensures IsIdentChar(parts[0][i]) {
              if i > 0 {
                assert parts[0][i] == rest[0][i - 1];
              }
            }
          }
        }
      }
    }
  }

  /** The recogniser accepts exactly the dotted names. */
  lemma AcceptsIffDottedName(s: string)
    ensures Accepts(s) <==> IsDottedName(s)
  {
    ScanMeansSplit(s);
  }

  /** Every character the recogniser steps over is an identifier character or a ".". */
  lemma {:induction false} ScannedChars(s: string, inSegment: bool)
    requires Scan(s, inSegment)
    ensures forall i :: 0 <= i < |s| ==> IsIdentChar(s[i]) || s[i] == '.'
    decreases |s|
  {
    if s != [] {
      ScannedChars(s[1..], s[0] != '.');
      assert forall i :: 1 <= i < |s| ==> s[i] == s[1..][i - 1];
    }
  }

  /** An accepted name starts with a letter or "_" and holds only identifier characters and dots. */
  lemma AcceptedShape(s: string)
    requires Accepts(s)
    ensures |s| >= 1 && IsIdentStart(s[0])
    ensures forall i :: 0 <= i < |s| ==> IsIdentChar(s[i]) || s[i] == '.'
  {
    ScannedChars(s, false);
  }

  /**
    An accepted name has no quote, backslash, newline, blank or ";", so it
    cannot escape the quoted `__import__('…')` of the check script.
   */
  lemma AcceptedNameIsInert(s: string)
    requires Accepts(s)
    ensures forall i :: 0 <= i < |s| ==> s[i] != '\'' && s[i] != '\\' && s[i] != '\n' && s[i] != ' ' && s[i] != ';'
  {
    AcceptedShape(s);
  }

  /**
    `MODULE_NAME_PATTERN.match(s)` as written: `$` without MULTILINE also
    matches just before one final newline, so a dotted name followed by
    "\n" passes the guard.
   */
  predicate MatchesAsWritten(s: string) {
    Accepts(s) || (|s| >= 1 && s[|s| - 1] == '\n' && Accepts(s[..|s| - 1]))
  }

  /** The discrepancy: "os\n" passes the pattern as written although it is not a module name. */
  lemma TrailingNewlinePassesAsWritten()
    ensures MatchesAsWritten("os\n")
    ensures !Accepts("os\n")
  {
    var s := "os\n";
    assert s[..2] == "os";
    AcceptsIffDottedName("os");
    SplitWithoutSeparator("os", '.');
    assert IsIdentifier("os");
    RejectsForeignChar(s, 2);
  }

  /** A single identifier is accepted. */
  lemma AcceptsIdentifier(w: string)
    requires IsIdentifier(w)
    ensures Accepts(w)
  {
    AcceptsIffDottedName(w);
    SplitWithoutSeparator(w, '.');
  }

  /** Two identifiers joined by one dot are accepted. */
  lemma AcceptsQualified(a: string, b: string)
    requires IsIdentifier(a) && IsIdentifier(b)
    ensures Accepts(a + "." + b)
  {
    AcceptsIffDottedName(a + "." + b);
    SplitAppend(a, b, '.');
    SplitWithoutSeparator(a, '.');
    SplitWithoutSeparator(b, '.');
  }

  /** Names the test-suite expects to pass the guard. */
  lemma AcceptedExamples()
    ensures Accepts("os") && Accepts("collections.abc") && Accepts("_private") && Accepts("test123")
  {
    AcceptsIdentifier("os");
    AcceptsQualified("collections", "abc");
    assert "collections" + "." + "abc" == "collections.abc";
    AcceptsIdentifier("_private");
    AcceptsIdentifier("test123");
  }

  /** A character that is neither an identifier character nor "." anywhere in the name rejects it. */
  lemma RejectsForeignChar(s: string, i: nat)
    requires i < |s| && !IsIdentChar(s[i]) && s[i] != '.'
    ensures !Accepts(s)
  {
    if Accepts(s) {
      AcceptedShape(s);
      assert false;
    }
  }

  /** A name must start with a letter or "_". */
  lemma RejectsBadStart(s: string)
    requires |s| >= 1 && !IsIdentStart(s[0])
    ensures !Accepts(s)
  {
    if Accepts(s) {
      AcceptedShape(s);
      assert false;
    }
  }

  /** Injection attempts and malformed names the test-suite expects the guard to reject. */
  lemma RejectedExamples()
    ensures !Accepts("os; import sys") && !Accepts("../malicious") && !Accepts("123test")
    ensures !Accepts("my-module") && !Accepts("test module") && !Accepts("__import__('os')")
  {
    RejectsForeignChar("os; import sys", 2);
    RejectsBadStart("../malicious");
    RejectsBadStart("123test");
    RejectsForeignChar("my-module", 2);
    RejectsForeignChar("test module", 4);
    RejectsForeignChar("__import__('os')", 10);
  }
}
