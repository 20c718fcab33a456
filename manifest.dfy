/**
 * The concat manifest `concat.txt` that the buffer save hands to FFmpeg:
 * how the recorder writes it, and how FFmpeg's concat demuxer reads it back
 * (its line reader, its `file` directive and its `av_get_token` quoting rules).
 * The reader is what gives the written text a meaning: a manifest is right
 * when reading it yields the segment paths, in order.
 */
module Manifest {
  import opened Options
  import opened Paths

  /** FFmpeg's `SPACE_CHARS`: the blanks that separate a directive's words. */
  predicate IsSpace(c: char) {
    c == ' ' || c == '\t' || c == '\r' || c == '\n'
  }

  /** The demuxer's line reader ends a line at either of these. */
  predicate IsLineEnd(c: char) {
    c == '\n' || c == '\r'
  }

  predicate NoLineEnds(s: string) {
    forall i :: 0 <= i < |s| ==> !IsLineEnd(s[i])
  }

  // ----- Writing -----

  /** One manifest line exactly as recorder.py writes it: the path with forward slashes, inside single quotes, unescaped. */
  function LineAsWritten(path: string): (r: string)
    ensures |r| == |path| + 8 && r[|r| - 1] == '\n'
  {
    "file '" + ToForward(path) + "'\n"
  }

  /** Shell-style escaping of a quoted word: every `'` becomes `'\''` (close, escaped quote, reopen). */
  function Escape(s: string): (r: string)
    ensures |r| >= |s|
    ensures '\'' !in s ==> r == s
    decreases |s|
  {
    if s == [] then []
    else (if s[0] == '\'' then "'\\''" else [s[0]]) + Escape(s[1..])
  }

  function Quote(s: string): string {
    "'" + Escape(s) + "'"
  }

  /** The `file` directive naming one segment, with the path quoted so that any character survives. */
  function Entry(path: string): string {
    "file " + Quote(ToForward(path))
  }

  function Line(path: string): string {
    Entry(path) + "\n"
  }

  /** The whole manifest: one line per segment, in the given order. */
  function Text(paths: seq<string>): string
    decreases |paths|
  {
    if paths == [] then "" else Line(paths[0]) + Text(paths[1..])
  }

  /** The paths, with slashes forward, that a manifest should hand to FFmpeg. */
  function Forwards(paths: seq<string>): (r: seq<string>)
    ensures |r| == |paths| && forall i :: 0 <= i < |paths| ==> r[i] == ToForward(paths[i])
  {
    seq(|paths|, i requires 0 <= i < |paths| => ToForward(paths[i]))
  }

  /** The quoted line is the one recorder.py writes whenever the path holds no apostrophe. */
  lemma LineAgreesWithoutApostrophe(path: string)
    requires '\'' !in path
    ensures Line(path) == LineAsWritten(path)
  {
    assert '\'' !in ToForward(path);
  }

  /** Appending a path appends its line. */
  lemma TextAppend(paths: seq<string>, p: string)
    ensures Text(paths + [p]) == Text(paths) + Line(p)
    decreases |paths|
  {
    if paths != [] {
      assert (paths + [p])[1..] == paths[1..] + [p];
      TextAppend(paths[1..], p);
    }
  }

  /** The loop of recorder.py that writes the manifest, one line per segment path. */
  method WriteManifest(paths: seq<string>) returns (text: string)
    ensures text == Text(paths)
  {
    text := "";
    var i := 0;
    while i < |paths|
      invariant 0 <= i <= |paths|
      invariant text == Text(paths[..i])
    {
      TextAppend(paths[..i], paths[i]);
      assert paths[..i + 1] == paths[..i] + [paths[i]];
      text := text + Line(paths[i]);
      i := i + 1;
    }
    assert paths[..i] == paths;
  }

  // ----- Reading, as FFmpeg's concat demuxer does -----

  function SkipSpaces(s: string): (r: string)
    ensures |r| <= |s| && r == s[|s| - |r|..]
    ensures r == [] || !IsSpace(r[0])
    decreases |s|
  {
    if s != [] && IsSpace(s[0]) then SkipSpaces(s[1..]) else s
  }

  /** Length of the leading run of non-blank characters: the directive keyword. */
  function WordLength(s: string): (n: nat)
    ensures n <= |s| && forall i :: 0 <= i < n ==> !IsSpace(s[i])
    ensures n < |s| ==> IsSpace(s[n])
    decreases |s|
  {
    if s == [] || IsSpace(s[0]) then 0 else 1 + WordLength(s[1..])
  }

  /**
   * `av_get_token(s, SPACE_CHARS)` after leading blanks: an unquoted blank ends
   * the token, a backslash takes the next character literally, and a `'`
   * starts a quoted run.
   */
  function Token(s: string): string
    decreases |s|
  {
    if s == [] || IsSpace(s[0]) then []
    else if s[0] == '\\' && |s| >= 2 then [s[1]] + Token(s[2..])
    else if s[0] == '\'' then Quoted(s[1..])
    else [s[0]] + Token(s[1..])
  }

  /** Inside single quotes every character is literal up to the next `'`; an unclosed quote runs to the end. */
  function Quoted(s: string): string
    decreases |s|
  {
    if s == [] then []
    else if s[0] == '\'' then Token(s[1..])
    else [s[0]] + Quoted(s[1..])
  }

  datatype Directive = Blank | File(path: string) | Other(keyword: string)

  /** A manifest line: blank and `#` lines are skipped, `file` names the next input. */
  function ParseLine(line: string): Directive {
    var s := SkipSpaces(line);
    var k := WordLength(s);
    if k == 0 || s[0] == '#' then Blank
    else if s[..k] == "file" then File(Token(SkipSpaces(s[k..])))
    else Other(s[..k])
  }

  /** Length of the first line of `s`, up to its first line end. */
  function LineLength(s: string): (n: nat)
    ensures n <= |s| && (n < |s| ==> IsLineEnd(s[n]))
    decreases |s|
  {
    if s == [] || IsLineEnd(s[0]) then 0 else 1 + LineLength(s[1..])
  }

  /** The inputs FFmpeg concatenates, in order, or None when a line holds another directive. */
  function ReadManifest(text: string): Option<seq<string>>
    decreases |text|
  {
    if text == [] then Some([])
    else
      var n := LineLength(text);
      var rest := if n < |text| then ReadManifest(text[n + 1..]) else Some([]);
      match ParseLine(text[..n])
      case Blank => rest
      case File(p) => if rest.Some? then Some([p] + rest.value) else None
      case Other(_) => None
  }

  // ----- Writing, then reading -----

  /** One unrolling of the reader, stated once so callers need not unfold `Token` themselves. */
  lemma TokenCons(c: char, s: string)
    ensures Token([c] + s) ==
      if IsSpace(c) then []
      else if c == '\\' && s != [] then [s[0]] + Token(s[1..])
      else if c == '\'' then Quoted(s)
      else [c] + Token(s)
  {
    assert ([c] + s)[0] == c && ([c] + s)[1..] == s;
    if c == '\\' && s != [] {
      assert ([c] + s)[2..] == s[1..];
    }
  }

  /** One unrolling of the quoted-word reader, for the same reason. */
  lemma QuotedCons(c: char, s: string)
    ensures Quoted([c] + s) == if c == '\'' then Token(s) else [c] + Quoted(s)
  {
    assert ([c] + s)[0] == c && ([c] + s)[1..] == s;
  }

  /** One unrolling of `Escape` at an apostrophe. */
  lemma EscapeApostrophe(q: string)
    requires q != [] && q[0] == '\''
    ensures Escape(q) == "'\\''" + Escape(q[1..])
  {
  }

  /** The four characters of an escaped apostrophe, one at a time. */
  lemma EscapedApostropheChars(x: string, e: string, rest: string)
    requires x == "'\\''" + e
    ensures x + "'" + rest == ['\''] + (['\\'] + (['\''] + (['\''] + (e + "'" + rest))))
  {
    var w := "'\\''";
    assert x + "'" + rest == w + (e + "'" + rest);
    Regroup(w, e + "'" + rest);
  }

  /** The same step regrouped character by character; a separate lemma keeps the sequence equation small for the solver. */
  lemma EscapeApostropheStep(q: string, rest: string)
    requires q != [] && q[0] == '\''
    ensures Escape(q) + "'" + rest == ['\''] + (['\\'] + (['\''] + (['\''] + (Escape(q[1..]) + "'" + rest))))
  {
    EscapeApostrophe(q);
    EscapedApostropheChars(Escape(q), Escape(q[1..]), rest);
  }

  /** Splits a four-character prefix into single characters; kept apart so the solver sees an abstract `w`. */
  lemma Regroup(w: string, t: string)
    requires |w| == 4
    ensures w + t == [w[0]] + ([w[1]] + ([w[2]] + ([w[3]] + t)))
  {
  }

  /** One unrolling of `Escape` at any other character, regrouped for `QuotedCons`. */
  lemma EscapePlainStep(q: string, rest: string)
    requires q != [] && q[0] != '\''
    ensures Escape(q) + "'" + rest == [q[0]] + (Escape(q[1..]) + "'" + rest)
  {
    assert Escape(q) == [q[0]] + Escape(q[1..]);
  }

  /** Reading the escape of `q` inside quotes yields `q`'s first character, then the rest of the escape. */
  lemma QuotedEscapeStep(q: string, rest: string)
    requires q != []
    ensures Quoted(Escape(q) + "'" + rest) == [q[0]] + Quoted(Escape(q[1..]) + "'" + rest)
  {
    var tail := Escape(q[1..]) + "'" + rest;
    if q[0] == '\'' {
      EscapeApostropheStep(q, rest);
      QuotedCons('\'', ['\\'] + (['\''] + (['\''] + tail)));
      TokenCons('\\', ['\''] + (['\''] + tail));
      TokenCons('\'', tail);
    } else {
      EscapePlainStep(q, rest);
      QuotedCons(q[0], tail);
    }
  }

  /** Reassociation of a head and its tail; kept apart so the solver sees an abstract `q`. */
  lemma HeadTail(q: string, t: string)
    requires q != []
    ensures [q[0]] + (q[1..] + t) == q + t
  {
  }

  /** Reading an escaped word inside quotes gives back the word, then whatever follows the closing quote. */
  lemma {:induction false} QuotedEscape(q: string, rest: string)
    ensures Quoted(Escape(q) + "'" + rest) == q + Token(rest)
    decreases |q|
  {
    if q == [] {
      assert Escape(q) + "'" + rest == ['\''] + rest;
      QuotedCons('\'', rest);
      assert q + Token(rest) == Token(rest);
    } else {
      QuotedEscape(q[1..], rest);
      QuotedEscapeStep(q, rest);
      HeadTail(q, Token(rest));
    }
  }

  /** Reading a quoted word gives back exactly the word, whatever characters it holds. */
  lemma TokenOfQuote(q: string, rest: string)
    requires rest == [] || IsSpace(rest[0])
    ensures Token(Quote(q) + rest) == q
  {
    assert Quote(q) + rest == "'" + (Escape(q) + "'" + rest);
    QuotedEscape(q, rest);
  }

  /** A word without blanks, followed by a blank, is measured exactly. */
  lemma {:induction false} WordLengthOf(a: string, b: string)
    requires forall i :: 0 <= i < |a| ==> !IsSpace(a[i])
    ensures WordLength(a + " " + b) == |a|
    decreases |a|
  {
    if a != [] {
      assert (a + " " + b)[0] == a[0] && (a + " " + b)[1..] == a[1..] + " " + b;
      WordLengthOf(a[1..], b);
    } else {
      assert a + " " + b == [' '] + b;
    }
  }

  /** Nothing is skipped before a non-blank character. */
  lemma SkipNoSpaces(s: string)
    requires s != [] && !IsSpace(s[0])
    ensures SkipSpaces(s) == s
  {
  }

  /** One blank is skipped before a non-blank character. */
  lemma SkipOneSpace(s: string)
    requires s != [] && !IsSpace(s[0])
    ensures SkipSpaces([' '] + s) == s
  {
    assert ([' '] + s)[1..] == s;
  }

  /** The directive word of a `file` line and what follows it. */
  lemma FileWord(arg: string)
    ensures var line := "file " + arg;
      |line| >= 5 && line[0] == 'f' && line[..4] == "file" && line[4..] == [' '] + arg
      && line == "file" + " " + arg
  {
  }

  /** Parsing a line of that shape, over abstract parts so the solver does not unfold the literal. */
  lemma ParseFileShape(line: string, arg: string)
    requires SkipSpaces(line) == line && WordLength(line) == 4
    requires line[0] == 'f' && line[..4] == "file" && line[4..] == [' '] + arg
    requires SkipSpaces([' '] + arg) == arg
    ensures ParseLine(line) == File(Token(arg))
  {
  }

  /** A `file` directive followed by one blank and its argument. */
  lemma ParseFileLine(arg: string)
    requires arg != [] && !IsSpace(arg[0])
    ensures ParseLine("file " + arg) == File(Token(arg))
  {
    var line := "file " + arg;
    FileWord(arg);
    SkipNoSpaces(line);
    WordLengthOf("file", arg);
    SkipOneSpace(arg);
    ParseFileShape(line, arg);
  }

  /** A `file` line the recorder writes names exactly its segment, with slashes forward. */
  lemma ParseEntry(path: string)
    ensures ParseLine(Entry(path)) == File(ToForward(path))
  {
    var q := Quote(ToForward(path));
    ParseFileLine(q);
    TokenOfQuote(ToForward(path), []);
    assert q + [] == q;
  }

  /** A line ends at its first line end. */
  lemma {:induction false} LineLengthOf(a: string, c: char, b: string)
    requires NoLineEnds(a) && IsLineEnd(c)
    ensures LineLength(a + [c] + b) == |a|
    decreases |a|
  {
    if a != [] {
      assert (a + [c] + b)[1..] == a[1..] + [c] + b;
      LineLengthOf(a[1..], c, b);
    }
  }

  /** Escaping adds no line end. */
  lemma {:induction false} EscapeNoLineEnds(s: string)
    requires NoLineEnds(s)
    ensures NoLineEnds(Escape(s))
    decreases |s|
  {
    if s != [] {
      EscapeNoLineEnds(s[1..]);
    }
  }

  /** Nor does quoting. */
  lemma EntryNoLineEnds(path: string)
    requires NoLineEnds(path)
    ensures NoLineEnds(Entry(path))
  {
    EscapeNoLineEnds(ToForward(path));
  }

  /** Having no line end distributes over concatenation. */
  lemma NoLineEndsConcat(a: string, b: string)
    ensures NoLineEnds(a + b) <==> NoLineEnds(a) && NoLineEnds(b)
  {
    if NoLineEnds(a + b) {
      forall i | 0 <= i < |a| ensures !IsLineEnd(a[i]) {
        assert (a + b)[i] == a[i];
      }
      forall i | 0 <= i < |b| ensures !IsLineEnd(b[i]) {
        assert (a + b)[|a| + i] == b[i];
      }
    }
  }

  /** The reader splits the text at the end of the first line. */
  lemma SplitAtLineEnd(body: string, rest: string)
    requires NoLineEnds(body)
    ensures var t := body + "\n" + rest;
      t != [] && LineLength(t) == |body| < |t| && t[..|body|] == body && t[|body| + 1..] == rest
  {
    var t := body + "\n" + rest;
    assert t == body + ['\n'] + rest;
    LineLengthOf(body, '\n', rest);
  }

  /** A `file` line followed by more manifest text contributes its path ahead of what the rest yields. */
  lemma ReadFileLine(body: string, p: string, rest: string, ps: seq<string>)
    requires NoLineEnds(body) && ParseLine(body) == File(p)
    requires ReadManifest(rest) == Some(ps)
    ensures ReadManifest(body + "\n" + rest) == Some([p] + ps)
  {
    SplitAtLineEnd(body, rest);
  }

  /** One unrolling of `Text` from the front; stated once so the induction step stays small. */
  lemma TextCons(paths: seq<string>)
    requires paths != []
    ensures Text(paths) == Entry(paths[0]) + "\n" + Text(paths[1..])
  {
  }

  /** One unrolling of `Forwards` from the front, for the same reason. */
  lemma ForwardsCons(paths: seq<string>)
    requires paths != []
    ensures Forwards(paths) == [ToForward(paths[0])] + Forwards(paths[1..])
  {
  }

  /**
   * Reading back the manifest of a listing yields that listing with slashes
   * forward, line for line and in the same order, whatever apostrophes the
   * paths hold (paths never hold line ends).
   */
  lemma {:induction false} ReadWrittenManifest(paths: seq<string>)
    requires forall i :: 0 <= i < |paths| ==> NoLineEnds(paths[i])
    ensures ReadManifest(Text(paths)) == Some(Forwards(paths))
    decreases |paths|
  {
    if paths != [] {
      var p, tail := paths[0], paths[1..];
      assert NoLineEnds(p);
      assert forall i :: 0 <= i < |tail| ==> NoLineEnds(tail[i]) by {
        forall i | 0 <= i < |tail| ensures NoLineEnds(tail[i]) {
          assert tail[i] == paths[i + 1];
        }
      }
      EntryNoLineEnds(p);
      ParseEntry(p);
      ReadWrittenManifest(tail);
      ReadFileLine(Entry(p), ToForward(p), Text(tail), Forwards(tail));
      TextCons(paths);
      ForwardsCons(paths);
    }
  }

  // ----- The line as written loses apostrophes -----

  /** Unquoted plain characters are read as they are. */
  lemma {:induction false} TokenPlain(b: string, rest: string)
    requires forall i :: 0 <= i < |b| ==> !IsSpace(b[i]) && b[i] != '\\' && b[i] != '\''
    ensures Token(b + rest) == b + Token(rest)
    decreases |b|
  {
    if b != [] {
      var s := b + rest;
      assert s[0] == b[0] && s[1..] == b[1..] + rest;
      assert !IsSpace(s[0]) && s[0] != '\\' && s[0] != '\'';
      assert Token(s) == [b[0]] + Token(b[1..] + rest);
      TokenPlain(b[1..], rest);
      assert b == [b[0]] + b[1..];
    } else {
      assert b + rest == rest;
    }
  }

  /** Inside quotes, characters up to the next apostrophe are read as they are. */
  lemma {:induction false} QuotedPlain(a: string, rest: string)
    requires '\'' !in a
    ensures Quoted(a + "'" + rest) == a + Token(rest)
    decreases |a|
  {
    if a == [] {
      assert a + "'" + rest == "'" + rest;
    } else {
      assert (a + "'" + rest)[1..] == a[1..] + "'" + rest;
      QuotedPlain(a[1..], rest);
      assert a == [a[0]] + a[1..];
    }
  }

  /** The separator rewrite works character by character, so it distributes over concatenation. */
  lemma ToForwardConcat(a: string, b: string)
    ensures ToForward(a + b) == ToForward(a) + ToForward(b)
  {
    var l, r := ToForward(a + b), ToForward(a) + ToForward(b);
    forall i | 0 <= i < |l| ensures l[i] == r[i] {
      if i < |a| {
        assert (a + b)[i] == a[i] && r[i] == ToForward(a)[i];
      } else {
        assert (a + b)[i] == b[i - |a|] && r[i] == ToForward(b)[i - |a|];
      }
    }
    assert |l| == |r|;
  }

  /** The rewrite leaves an apostrophe where it was. */
  lemma ForwardSplit(x: string, y: string)
    ensures ToForward(x + "'" + y) == ToForward(x) + "'" + ToForward(y)
  {
    assert x + "'" + y == x + ("'" + y);
    ToForwardConcat(x, "'" + y);
    ToForwardConcat("'", y);
    assert ToForward("'") == "'";
  }

  /** Only a backslash changes under the rewrite, so the characters the reader cares about stay put. */
  lemma ForwardNoLineEnds(s: string)
    requires NoLineEnds(s)
    ensures NoLineEnds(ToForward(s))
  {
  }

  /** The rewrite adds no apostrophe. */
  lemma ForwardNoApostrophe(s: string)
    requires '\'' !in s
    ensures '\'' !in ToForward(s)
  {
  }

  /** A word without blanks or apostrophes has, once rewritten, no blank, backslash or apostrophe. */
  lemma ForwardPlain(s: string)
    requires forall i :: 0 <= i < |s| ==> !IsSpace(s[i]) && s[i] != '\''
    ensures forall i :: 0 <= i < |s| ==>
      var c := ToForward(s)[i]; !IsSpace(c) && c != '\\' && c != '\''
  {
  }

  /** Regrouping of the misquoted word; kept apart so the solver sees abstract parts. */
  lemma MisquotedShape(fx: string, fy: string)
    ensures "'" + fx + "'" + fy + "'" == ['\''] + (fx + "'" + (fy + "'"))
  {
  }

  /** `'x'y'` reads as `xy` when neither holds an apostrophe and `y` is plain. */
  lemma TokenMisquoted(fx: string, fy: string)
    requires '\'' !in fx
    requires forall i :: 0 <= i < |fy| ==> !IsSpace(fy[i]) && fy[i] != '\\' && fy[i] != '\''
    ensures Token("'" + fx + "'" + fy + "'") == fx + fy
  {
    MisquotedShape(fx, fy);
    TokenCons('\'', fx + "'" + (fy + "'"));
    QuotedPlain(fx, fy + "'");
    TokenPlain(fy, "'");
    assert Token("'") == Quoted([]) == [];
    assert fy + [] == fy;
  }

  /** Regrouping of the as-written line into directive, argument and line end, for the same reason. */
  lemma MisquotedLineShape(fx: string, fy: string)
    ensures "file '" + (fx + "'" + fy) + "'\n" == "file " + ("'" + fx + "'" + fy + "'") + "\n" + []
  {
  }

  /** The as-written line of a path holding one apostrophe, in that grouping. */
  lemma AsWrittenLine(x: string, y: string)
    ensures LineAsWritten(x + "'" + y) == "file " + ("'" + ToForward(x) + "'" + ToForward(y) + "'") + "\n" + []
  {
    ForwardSplit(x, y);
    MisquotedLineShape(ToForward(x), ToForward(y));
  }

  /** The misquoted line holds no line end before its last character. */
  lemma MisquotedNoLineEnds(fx: string, fy: string)
    requires NoLineEnds(fx) && NoLineEnds(fy)
    ensures NoLineEnds("file " + ("'" + fx + "'" + fy + "'"))
  {
    NoLineEndsConcat("file '", fx);
    NoLineEndsConcat("file '" + fx, "'");
    NoLineEndsConcat("file '" + fx + "'", fy);
    NoLineEndsConcat("file '" + fx + "'" + fy, "'");
    assert "file " + ("'" + fx + "'" + fy + "'") == "file '" + fx + "'" + fy + "'";
  }

  /**
   * A path `x'y` (one apostrophe, no blank after it) written as recorder.py
   * writes it is read back by FFmpeg as `xy`: the apostrophe closes the quote,
   * `y` is read unquoted and the final `'` opens an empty quote. The concat
   * step then names a file that does not exist.
   */
  lemma AsWrittenLosesApostrophe(x: string, y: string)
    requires '\'' !in x && '\'' !in y && NoLineEnds(x) && NoLineEnds(y)
    requires forall i :: 0 <= i < |y| ==> !IsSpace(y[i])
    ensures ReadManifest(LineAsWritten(x + "'" + y)) == Some([ToForward(x) + ToForward(y)])
    ensures ReadManifest(LineAsWritten(x + "'" + y)) != Some([ToForward(x + "'" + y)])
  {
    var fx, fy := ToForward(x), ToForward(y);
    var arg := "'" + fx + "'" + fy + "'";
    AsWrittenLine(x, y);
    ForwardNoLineEnds(x);
    ForwardNoLineEnds(y);
    MisquotedNoLineEnds(fx, fy);
    ForwardNoApostrophe(x);
    ForwardPlain(y);
    TokenMisquoted(fx, fy);
    ParseFileLine(arg);
    assert ReadManifest([]) == Some([]);
    ReadFileLine("file " + arg, fx + fy, [], []);
    assert [fx + fy] + [] == [fx + fy];
    ForwardSplit(x, y);
  }
}
