/**
 * Candidate lists: the whitespace stripping that `str.strip()` applies to
 * every line of a word-list file, the removal of one trailing blank entry,
 * and the choice between a list file and a single literal value.
 */
module WordList {
  import opened Wrappers

  /** The characters Python's `str.isspace` (and so `str.strip()`) treats as whitespace. */
  predicate IsSpace(c: char)
  {
    c == ' ' || c == '\t' || c == '\n' || c == '\r' || c == '\U{0B}' || c == '\U{0C}'
    || ('\U{1C}' <= c <= '\U{1F}') || c == '\U{85}' || c == '\U{A0}' || c == '\U{1680}'
    || ('\U{2000}' <= c <= '\U{200A}') || c == '\U{2028}' || c == '\U{2029}'
    || c == '\U{202F}' || c == '\U{205F}' || c == '\U{3000}'
  }

  predicate AllSpace(s: string)
  {
    forall k :: 0 <= k < |s| ==> IsSpace(s[k])
  }

  /** A string with no whitespace at either end: what `strip()` can return. */
  predicate Bare(s: string)
  {
    s == [] || (!IsSpace(s[0]) && !IsSpace(s[|s| - 1]))
  }

  /** Number of leading whitespace characters. */
  function LeadLength(s: string): (n: nat)
    ensures n <= |s|
    ensures AllSpace(s[..n])
    ensures n < |s| ==> !IsSpace(s[n])
  {
    if s == [] || !IsSpace(s[0]) then 0
    else
      var n := 1 + LeadLength(s[1..]);
      assert s[..n] == [s[0]] + s[1..][..n - 1];
      n
  }

  /** Length of `s` without its trailing whitespace. */
  function CoreEnd(s: string): (n: nat)
    ensures n <= |s|
    ensures AllSpace(s[n..])
    ensures n > 0 ==> !IsSpace(s[n - 1])
  {
    if s == [] || !IsSpace(s[|s| - 1]) then |s|
    else
      var n := CoreEnd(s[..|s| - 1]);
      assert s[n..] == s[..|s| - 1][n..] + [s[|s| - 1]];
      n
  }

  /** Python's `str.strip()` with no argument. */
  function Strip(s: string): (r: string)
    ensures LeadLength(s) + |r| <= |s|
    ensures Bare(r)
    ensures r == s[LeadLength(s)..LeadLength(s) + |r|]
    ensures AllSpace(s[LeadLength(s) + |r|..])
    ensures r == [] <==> AllSpace(s)
  {
    var i := LeadLength(s);
    var t := s[i..];
    var j := CoreEnd(t);
    assert t[j..] == s[i + j..];
    assert AllSpace(s) ==> i == |s|;
    t[..j]
  }

  lemma {:induction false} LeadLengthOf(a: string, m: string)
    requires AllSpace(a)
    requires m == [] || !IsSpace(m[0])
    ensures LeadLength(a + m) == |a|
  {
    if a != [] {
      assert (a + m)[1..] == a[1..] + m;
      LeadLengthOf(a[1..], m);
    } else {
      assert a + m == m;
    }
  }

  lemma {:induction false} CoreEndOf(m: string, b: string)
    requires AllSpace(b)
    requires m == [] || !IsSpace(m[|m| - 1])
    ensures CoreEnd(m + b) == |m|
  {
    if b != [] {
      assert (m + b)[..|m + b| - 1] == m + b[..|b| - 1];
      CoreEndOf(m, b[..|b| - 1]);
    } else {
      assert m + b == m;
    }
  }

  /**
   * `Strip` removes exactly the surrounding whitespace: whenever a string is
   * a bare core between two runs of whitespace, stripping it yields that core.
   */
  lemma {:induction false} StripUnique(a: string, m: string, b: string)
    requires AllSpace(a) && AllSpace(b) && Bare(m)
    ensures Strip(a + m + b) == m
  {
    var s := a + m + b;
    if m == [] {
      assert AllSpace(s) by {
        forall k | 0 <= k < |s| ensures IsSpace(s[k]) {
          if k < |a| { assert s[k] == a[k]; } else { assert s[k] == b[k - |a|]; }
        }
      }
    } else {
      assert s == a + (m + b);
      LeadLengthOf(a, m + b);
      assert s[|a|..] == m + b;
      CoreEndOf(m, b);
    }
  }

  lemma StripIdempotent(s: string)
    ensures Strip(Strip(s)) == Strip(s)
  {
    var m := Strip(s);
    assert [] + m + [] == m;
    StripUnique([], m, []);
  }

  /** Errors raised while building a candidate list. */
  datatype LoadError =
    | NoSuchFile(path: string)   // `open(path, 'r')` fails
    | EmptyFile(path: string)    // `lines[-1]` on a file with no lines raises IndexError
    | Unbound                    // neither option given: the list variable is never bound,
                                 // which fails where the loop first reads it

  /**
   * Loads a list from the raw lines of a file (as `readlines()` returns them,
   * each but possibly the last ending in its newline): every line is
   * stripped, and the last entry is dropped when it is empty after stripping.
   * A file with no lines is an error (`lines[-1]` raises IndexError). Every
   * other entry keeps its stripped value and its position, empty or not, and
   * at most one entry is removed.
   */
  function LoadLines(lines: seq<string>): (r: Result<seq<string>, ()>)
    ensures r.Err? <==> lines == []
    ensures r.Ok? ==> |r.value| == |lines| || |r.value| == |lines| - 1
    ensures r.Ok? ==> (|r.value| == |lines| - 1 <==> Strip(lines[|lines| - 1]) == "")
    ensures r.Ok? ==> forall k :: 0 <= k < |r.value| ==> r.value[k] == Strip(lines[k])
  {
    if lines == [] then Err(())
    else
      var stripped := seq(|lines|, k requires 0 <= k < |lines| => Strip(lines[k]));
      if stripped[|stripped| - 1] == "" then Ok(stripped[..|stripped| - 1]) else Ok(stripped)
  }

  lemma StripExamples()
    ensures Strip("\n") == ""
    ensures Strip("a\n") == "a"
  {
    assert AllSpace("\n");
    assert "a\n" == [] + "a" + "\n";
    StripUnique([], "a", "\n");
  }

  // The file "a\n\n" reads as the lines "a\n" and "\n": the blank last line is
  // dropped and no empty entry remains.
  lemma TrailingBlankLineDropped()
    ensures LoadLines(["a\n", "\n"]) == Ok(["a"])
  {
    StripExamples();
    var lines := ["a\n", "\n"];
    var r := LoadLines(lines).value;
    assert |r| == 1 && r[0] == Strip(lines[0]);
    assert r == ["a"];
  }

  // Only one blank entry is dropped: "a\n\n\n" leaves one empty entry behind.
  lemma OnlyOneBlankLineDropped()
    ensures LoadLines(["a\n", "\n", "\n"]) == Ok(["a", ""])
  {
    StripExamples();
    var lines := ["a\n", "\n", "\n"];
    var r := LoadLines(lines).value;
    assert |r| == 2 && r[0] == Strip(lines[0]) && r[1] == Strip(lines[1]);
    assert r == ["a", ""];
  }

  // The file "a\n \n\n" ends in only two newlines, yet its last two lines
  // both strip to "", so one empty entry survives.
  lemma WhitespaceLineKeepsBlankEntry()
    ensures LoadLines(["a\n", " \n", "\n"]) == Ok(["a", ""])
  {
    StripExamples();
    assert Strip(" \n") == "" by { assert AllSpace(" \n"); }
    var lines := ["a\n", " \n", "\n"];
    var r := LoadLines(lines).value;
    assert |r| == 2 && r[0] == Strip(lines[0]) && r[1] == Strip(lines[1]);
    assert r == ["a", ""];
  }

  // An empty entry between other lines is never dropped.
  lemma MiddleBlankEntryKept()
    ensures LoadLines(["a\n", "\n", "b"]) == Ok(["a", "", "b"])
  {
    StripExamples();
    assert Strip("b") == "b" by {
      assert "b" == [] + "b" + [];
      StripUnique([], "b", []);
    }
    var lines := ["a\n", "\n", "b"];
    var r := LoadLines(lines).value;
    assert |r| == 3 && r[0] == Strip(lines[0]) && r[1] == Strip(lines[1]) && r[2] == Strip(lines[2]);
    assert r == ["a", "", "b"];
  }

  /** Python truthiness of an optional string argument: present and non-empty. */
  predicate Given(o: Option<string>)
  {
    o.Some? && o.value != ""
  }

  /**
   * The candidate list for one side (usernames or passwords): the list file
   * when given, else the literal value as a one-element list. `files` maps
   * each readable path to its lines.
   */
  function Candidates(literal: Option<string>, listPath: Option<string>, files: map<string, seq<string>>)
    : (r: Result<seq<string>, LoadError>)
    ensures Given(listPath) && listPath.value !in files ==> r == Err(NoSuchFile(listPath.value))
    ensures Given(listPath) && listPath.value in files ==>
      match LoadLines(files[listPath.value])
      case Ok(l) => r == Ok(l)
      case Err(_) => r == Err(EmptyFile(listPath.value))
    ensures !Given(listPath) && Given(literal) ==> r == Ok([literal.value])
    ensures !Given(listPath) && !Given(literal) ==> r == Err(Unbound)
  {
    if Given(listPath) then
      if listPath.value !in files then Err(NoSuchFile(listPath.value))
      else
        match LoadLines(files[listPath.value])
        case Ok(l) => Ok(l)
        case Err(_) => Err(EmptyFile(listPath.value))
    else if Given(literal) then Ok([literal.value])
    else Err(Unbound)
  }
}
