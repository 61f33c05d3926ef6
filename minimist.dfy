/**
 * The usage-template extractor `parseUsage` and its helpers: it reads the
 * `<name>` placeholders of a template such as `tinify set-key <key> <mode>`
 * and aligns them with the positional arguments after the command words.
 */
module Minimist {
  import opened Wrappers
  import opened Js

  // ---------------------------------------------------------------------------
  // parseRequiredFields: the global regular expression /<([^>]+?)>/g
  // ---------------------------------------------------------------------------

  /** The index of the first `>` in `t`, if any. */
  function CloseIndex(t: string): (r: Option<nat>)
    decreases |t|
    ensures r.Some? ==> r.value < |t| && t[r.value] == '>' && forall k | 0 <= k < r.value :: t[k] != '>'
    ensures r.None? ==> forall k | 0 <= k < |t| :: t[k] != '>'
  {
    if t == [] then None
    else if t[0] == '>' then Some(0)
    else
      match CloseIndex(t[1..])
      case None => None
      case Some(k) => Some(k + 1)
  }

  /**
   * Whether the pattern matches at the very start of `s`: a `<`, at least one
   * character other than `>`, then the first `>`. The result is the index of
   * that closing `>`.
   */
  function MatchAt(s: string): (r: Option<nat>)
    ensures r.Some? ==> 2 <= r.value < |s| && s[0] == '<' && s[r.value] == '>' && forall k | 1 <= k < r.value :: s[k] != '>'
    ensures r.None? ==> |s| < 2 || s[0] != '<' || s[1] == '>' || forall k | 1 <= k < |s| :: s[k] != '>'
  {
    if |s| > 0 && s[0] == '<' then
      match CloseIndex(s[1..])
      case Some(k) =>
        if k >= 1 then Some(k + 1) else None
      case None => None
    else None
  }

  /** A placeholder name the pattern captures whole. */
  predicate IsFieldName(f: string)
  {
    |f| > 0 && '>' !in f
  }

  /**
   * The captured names of every match of the pattern in `s`, left to right,
   * each match starting where the previous one ended.
   */
  function Fields(s: string): (r: seq<string>)
    decreases |s|
    ensures forall f | f in r :: IsFieldName(f)
    ensures 3 * |r| <= |s|
  {
    if s == [] then []
    else
      match MatchAt(s)
      case Some(j) => [s[1..j]] + Fields(s[j + 1..])
      case None => Fields(s[1..])
  }

  /** One successful `exec`: where the match starts, its capture group and the new `lastIndex`. */
  datatype Match = Match(index: nat, group: string, lastIndex: nat)

  /**
   * What a successful `exec` from `lastIndex` reports: the leftmost match at
   * or after `lastIndex` (no match starts between the two), running from a
   * `<` to the first `>` after it; the group is the text between them, a
   * field name, and it is the first field of the rest of the string.
   */
  predicate ExecFound(str: string, lastIndex: nat, m: Match)
    requires lastIndex <= |str|
  {
    lastIndex <= m.index && m.index + |m.group| + 2 == m.lastIndex <= |str| &&
    (forall k | lastIndex <= k < m.index :: MatchAt(str[k..]).None?) &&
    MatchAt(str[m.index..]) == Some(m.lastIndex - 1 - m.index) &&
    m.group == str[m.index + 1..m.lastIndex - 1] &&
    str[m.index] == '<' && str[m.lastIndex - 1] == '>' && IsFieldName(m.group) &&
    Fields(str[lastIndex..]) == [m.group] + Fields(str[m.lastIndex..])
  }

  /**
   * `requiredRegExp.exec(str)` for a global expression whose `lastIndex` is
   * `lastIndex`: the leftmost match that starts at or after it.
   */
  function RegexExec(str: string, lastIndex: nat): (m: Option<Match>)
    requires lastIndex <= |str|
    decreases |str| - lastIndex
    ensures m.None? ==> Fields(str[lastIndex..]) == []
    ensures m.None? ==> forall k | lastIndex <= k < |str| :: MatchAt(str[k..]).None?
    ensures m.Some? ==> ExecFound(str, lastIndex, m.value)
  {
    if lastIndex == |str| then None
    else
      match MatchAt(str[lastIndex..])
      case Some(j) => Some(ExecHere(str, lastIndex, j))
      case None =>
        ExecLater(str, lastIndex);
        RegexExec(str, lastIndex + 1)
  }

  /** A match at `lastIndex`: the `<`, the captured name and the position after the `>`. */
  function ExecHere(str: string, lastIndex: nat, j: nat): (m: Match)
    requires lastIndex < |str| && MatchAt(str[lastIndex..]) == Some(j)
    ensures m == Match(lastIndex, str[lastIndex + 1..lastIndex + j], lastIndex + j + 1)
    ensures ExecFound(str, lastIndex, m)
  {
    var t := str[lastIndex..];
    GroupAtMatch(t, j);
    FieldsAtMatch(t, j);
    var m := Match(lastIndex, t[1..j], lastIndex + j + 1);
    assert t[1..j] == str[lastIndex + 1..lastIndex + j];
    assert str[m.lastIndex..] == t[j + 1..];
    assert Fields(str[lastIndex..]) == [m.group] + Fields(str[m.lastIndex..]);
    assert str[m.index] == t[0] && str[m.lastIndex - 1] == t[j];
    m
  }

  /** A match at the start of `t` captures a field name. */
  lemma {:induction false} GroupAtMatch(t: string, j: nat)
    requires MatchAt(t) == Some(j)
    ensures j < |t| && IsFieldName(t[1..j])
  {
    assert '>' !in t[1..j];
  }

  /** A match at the start of `t` is its first field, and the fields go on after the `>`. */
  lemma {:induction false} FieldsAtMatch(t: string, j: nat)
    requires MatchAt(t) == Some(j)
    ensures Fields(t) == [t[1..j]] + Fields(t[j + 1..])
  {
    assert t != [];
  }

  /** No match at `lastIndex`: the fields are those of the string one further on. */
  lemma {:induction false} ExecLater(str: string, lastIndex: nat)
    requires lastIndex < |str| && MatchAt(str[lastIndex..]).None?
    ensures Fields(str[lastIndex..]) == Fields(str[lastIndex + 1..])
  {
    var t := str[lastIndex..];
    assert t[1..] == str[lastIndex + 1..];
  }

  /** `parseRequiredFields`: collect the capture of every match into `matches`. */
  method ParseRequiredFields(str: string) returns (matches: seq<string>)
    ensures matches == Fields(str)
  {
    if str == [] {
      return [];
    }
    matches := [];
    var lastIndex := 0;
    while true
      invariant lastIndex <= |str|
      invariant matches + Fields(str[lastIndex..]) == Fields(str)
      decreases |str| - lastIndex
    {
      var result := RegexExec(str, lastIndex);
      if result.None? {
        break;
      }
      matches := matches + [result.value.group];
      lastIndex := result.value.lastIndex;
    }
  }

  /** A stretch of template without `<` contributes no field. */
  lemma {:induction false} FieldsSkip(p: string, rest: string)
    requires '<' !in p
    ensures Fields(p + rest) == Fields(rest)
    decreases |p|
  {
    if p != [] {
      assert p[0] in p;
      assert (p + rest)[0] == p[0];
      assert (p + rest)[1..] == p[1..] + rest;
      assert MatchAt(p + rest).None?;
      assert Fields(p + rest) == Fields((p + rest)[1..]);
      FieldsSkip(p[1..], rest);
    } else {
      assert p + rest == rest;
    }
  }

  /** A placeholder `<name>` contributes exactly `name`, then extraction continues after it. */
  lemma {:induction false} FieldsPlaceholder(name: string, rest: string)
    requires IsFieldName(name)
    ensures Fields("<" + name + ">" + rest) == [name] + Fields(rest)
  {
    var s := "<" + name + ">" + rest;
    CloseIndexAt(name, ">" + rest);
    assert s[1..] == name + (">" + rest);
    assert MatchAt(s) == Some(|name| + 1);
    assert s[1..|name| + 1] == name;
    assert s[|name| + 2..] == rest;
  }

  /** When `t` is `name` followed by a `>`-first tail, its first `>` is right after `name`. */
  lemma {:induction false} CloseIndexAt(name: string, tail: string)
    requires '>' !in name && |tail| > 0 && tail[0] == '>'
    ensures CloseIndex(name + tail) == Some(|name|)
    decreases |name|
  {
    if name == [] {
      assert name + tail == tail;
    } else {
      assert (name + tail)[1..] == name[1..] + tail;
      CloseIndexAt(name[1..], tail);
    }
  }

  /** An optional placeholder `[name]` is never a required field. */
  lemma {:induction false} OptionalIsNotRequired(name: string, rest: string)
    requires '<' !in name
    ensures Fields("[" + name + "]" + rest) == Fields(rest)
  {
    assert "[" + name + "]" + rest == ("[" + name + "]") + rest;
    FieldsSkip("[" + name + "]", rest);
  }

  // ---------------------------------------------------------------------------
  // isRestField / normalize: the regular expression /\.\.\.$/
  // ---------------------------------------------------------------------------

  /** `isRestField`: the field ends with `...`, that is, it is some name followed by `...`. */
  predicate IsRestField(field: string)
    ensures IsRestField(field) <==> exists name :: field == name + "..."
  {
    assert |field| >= 3 && field[|field| - 3..] == "..." ==> field == field[..|field| - 3] + "...";
    assert forall name :: field == name + "..." ==> field[|field| - 3..] == "...";
    |field| >= 3 && field[|field| - 3..] == "..."
  }

  /** `normalize`: drop one trailing `...`, if there is one. */
  function Normalize(field: string): (r: string)
    ensures r <= field
    ensures IsRestField(field) ==> r + "..." == field
    ensures !IsRestField(field) ==> r == field
  {
    if IsRestField(field) then field[..|field| - 3] else field
  }

  /** Marking a name as rest and normalizing it gives the name back; only one `...` goes. */
  lemma {:induction false} NormalizeRestMarker(name: string)
    ensures IsRestField(name + "...")
    ensures Normalize(name + "...") == name
    ensures Normalize(name + "......") == name + "..."
  {
    assert (name + "...")[|name|..] == "...";
    assert (name + "......")[|name| + 3..] == "...";
    assert (name + "......")[..|name| + 3] == name + "...";
  }

  // ---------------------------------------------------------------------------
  // getCommands: usage.split(/[\-\<\[]/).shift().trim().split(/ +/).slice(1)
  // ---------------------------------------------------------------------------

  /** The characters that end the command words of a template. */
  predicate IsCommandEnd(c: char)
  {
    c == '-' || c == '<' || c == '['
  }

  /** `usage.split(/[\-\<\[]/).shift()`: the text before the first `-`, `<` or `[`. */
  function CommandPart(usage: string): (r: string)
    decreases |usage|
    ensures r <= usage
    ensures forall c | c in r :: !IsCommandEnd(c)
    ensures |r| < |usage| ==> IsCommandEnd(usage[|r|])
  {
    if usage == [] || IsCommandEnd(usage[0]) then [] else [usage[0]] + CommandPart(usage[1..])
  }

  /** The characters `String.prototype.trim` removes (white space and line terminators). */
  predicate IsJsWhitespace(c: char)
  {
    c == '\t' || c == '\n' || c == '\U{000B}' || c == '\U{000C}' || c == '\r' || c == ' ' ||
    c == '\U{00A0}' || c == '\U{1680}' || ('\U{2000}' <= c <= '\U{200A}') ||
    c == '\U{2028}' || c == '\U{2029}' || c == '\U{202F}' || c == '\U{205F}' ||
    c == '\U{3000}' || c == '\U{FEFF}'
  }

  /** Text made only of white space. */
  predicate AllWhitespace(t: string)
  {
    forall k | 0 <= k < |t| :: IsJsWhitespace(t[k])
  }

  /** Leading white space removed. */
  function TrimStart(s: string): (r: string)
    decreases |s|
    ensures |r| <= |s| && r == s[|s| - |r|..]
    ensures AllWhitespace(s[..|s| - |r|])
    ensures r != [] ==> !IsJsWhitespace(r[0])
  {
    if s != [] && IsJsWhitespace(s[0]) then TrimStart(s[1..]) else s
  }

  /** Trailing white space removed. */
  function TrimEnd(s: string): (r: string)
    decreases |s|
    ensures r <= s
    ensures AllWhitespace(s[|r|..])
    ensures r != [] ==> !IsJsWhitespace(r[|r| - 1])
  {
    if s != [] && IsJsWhitespace(s[|s| - 1]) then TrimEnd(s[..|s| - 1]) else s
  }

  /**
   * `String.prototype.trim`: the infix of `s` left after removing the white
   * space at both ends, which starts and ends with something else.
   */
  function Trim(s: string): (r: string)
    ensures |r| <= |s|
    ensures exists i, j | 0 <= i <= j <= |s| :: r == s[i..j] && AllWhitespace(s[..i]) && AllWhitespace(s[j..])
    ensures r != [] ==> !IsJsWhitespace(r[0]) && !IsJsWhitespace(r[|r| - 1])
  {
    var t := TrimStart(s);
    var r := TrimEnd(t);
    TrimInfix(s, t, r);
    r
  }

  /**
   * Trimming keeps the infix that starts where `TrimStart` stopped, with
   * only white space before and after it.
   */
  lemma {:induction false} TrimInfix(s: string, t: string, r: string)
    requires t == TrimStart(s) && r == TrimEnd(t)
    ensures |s| - |t| + |r| <= |s|
    ensures r == s[|s| - |t|..|s| - |t| + |r|]
    ensures AllWhitespace(s[..|s| - |t|]) && AllWhitespace(s[|s| - |t| + |r|..])
    ensures r != [] ==> !IsJsWhitespace(r[0]) && !IsJsWhitespace(r[|r| - 1])
  {
    var i := |s| - |t|;
    var j := i + |r|;
    SliceOfSlice(s, i, |r|);
    assert r == s[i..j] by {
      assert r == t[..|r|];
      assert t[..|r|] == s[i..][..|r|];
    }
    assert AllWhitespace(s[j..]) by {
      assert AllWhitespace(t[|r|..]);
      assert t[|r|..] == s[i..][|r|..];
    }
    if r != [] {
      assert r[0] == t[0];
    }
  }

  /** Slicing a suffix is slicing the whole. */
  lemma SliceOfSlice(s: string, i: nat, n: nat)
    requires i + n <= |s|
    ensures s[i..][..n] == s[i..i + n] && s[i..][n..] == s[i + n..]
  {
  }

  /** Leading spaces removed (one maximal run of the separator of / +/). */
  function DropSpaces(s: string): (r: string)
    decreases |s|
    ensures |r| <= |s| && (r == [] || r[0] != ' ')
  {
    if s != [] && s[0] == ' ' then DropSpaces(s[1..]) else s
  }

  /**
   * `s.split(/ +/)`: the pieces between maximal runs of spaces; the empty
   * string gives one empty piece.
   */
  function SplitSpaces(s: string): (r: seq<string>)
    decreases |s|
    ensures |r| >= 1
    ensures forall w | w in r :: ' ' !in w
  {
    if s == [] then [""]
    else if s[0] == ' ' then [""] + SplitSpaces(DropSpaces(s))
    else
      var tail := SplitSpaces(s[1..]);
      [[s[0]] + tail[0]] + tail[1..]
  }

  /** A non-empty run of spaces: one separator of `/ +/`. */
  predicate IsSpaceRun(g: string)
  {
    |g| > 0 && forall c | c in g :: c == ' '
  }

  /** `pieces[0] + gaps[0] + pieces[1] + ... + pieces[n]`: the pieces with the gaps between them. */
  function Interleave(pieces: seq<string>, gaps: seq<string>): string
    requires |pieces| == |gaps| + 1
    decreases |gaps|
  {
    if gaps == [] then pieces[0] else pieces[0] + gaps[0] + Interleave(pieces[1..], gaps[1..])
  }

  /**
   * Pieces that `split(/ +/)` can give: none holds a space, and only the
   * first and the last may be empty (when the text starts or ends with a
   * space).
   */
  predicate ArePieces(pieces: seq<string>)
  {
    |pieces| >= 1 &&
    (forall i | 0 <= i < |pieces| :: ' ' !in pieces[i]) &&
    (forall i | 0 < i < |pieces| - 1 :: pieces[i] != "")
  }

  /** `pieces` are the maximal space-free runs of `s`, in order, each pair separated by a run of spaces. */
  ghost predicate IsSpaceSplit(s: string, pieces: seq<string>)
  {
    ArePieces(pieces) &&
    exists gaps: seq<string> :: |gaps| == |pieces| - 1 && (forall g | g in gaps :: IsSpaceRun(g)) &&
      s == Interleave(pieces, gaps)
  }

  /** A leading space run, then `rest`: the gaps stay, the first piece grows. */
  lemma {:induction false} InterleaveCons(c: char, pieces: seq<string>, gaps: seq<string>)
    requires |pieces| == |gaps| + 1
    ensures [c] + Interleave(pieces, gaps) == Interleave([[c] + pieces[0]] + pieces[1..], gaps)
  {
    var p := [[c] + pieces[0]] + pieces[1..];
    assert p[1..] == pieces[1..];
  }

  /** `DropSpaces` removes exactly the leading run of spaces. */
  lemma {:induction false} DropSpacesPrefix(s: string)
    ensures DropSpaces(s) == s[|s| - |DropSpaces(s)|..]
    ensures forall k | 0 <= k < |s| - |DropSpaces(s)| :: s[k] == ' '
    decreases |s|
  {
    if s != [] && s[0] == ' ' {
      var t := s[1..];
      DropSpacesPrefix(t);
      var d := DropSpaces(t);
      assert DropSpaces(s) == d;
      var m := |t| - |d|;
      assert d == t[m..] == s[m + 1..];
      forall k | 0 <= k < m + 1
        ensures s[k] == ' '
      {
        if k > 0 {
          assert s[k] == t[k - 1];
        }
      }
    }
  }

  /** The pieces `split(/ +/)` gives are exactly the maximal space-free runs of its input. */
  lemma {:induction false} SplitSpacesRuns(s: string)
    ensures IsSpaceSplit(s, SplitSpaces(s))
    decreases |s|
  {
    if s == [] {
      assert s == Interleave(SplitSpaces(s), []);
    } else if s[0] == ' ' {
      var d := DropSpaces(s);
      SplitSpacesRuns(d);
      SplitAfterRun(s);
    } else {
      SplitSpacesRuns(s[1..]);
      SplitAfterChar(s);
    }
  }

  /** A text starting with a space: an empty first piece, then the split of the text after the run. */
  lemma {:induction false} SplitAfterRun(s: string)
    requires s != [] && s[0] == ' '
    requires IsSpaceSplit(DropSpaces(s), SplitSpaces(DropSpaces(s)))
    ensures IsSpaceSplit(s, SplitSpaces(s))
  {
    var d := DropSpaces(s);
    var tail := SplitSpaces(d);
    var gaps :| |gaps| == |tail| - 1 && (forall g | g in gaps :: IsSpaceRun(g)) && d == Interleave(tail, gaps);
    var n := |s| - |d|;
    var run := s[..n];
    assert IsSpaceRun(run) && s == run + d by {
      DropSpacesPrefix(s);
      assert s == s[..n] + s[n..];
      forall c | c in run
        ensures c == ' '
      {
        var k :| 0 <= k < n && run[k] == c;
      }
    }
    EmptyFirstPiece(tail, gaps);
    PrependRun(run, tail, gaps);
    assert SplitSpaces(s) == [""] + tail;
  }

  /** Split text whose first piece is empty, and not the only one, starts with a space. */
  lemma {:induction false} EmptyFirstPiece(tail: seq<string>, gaps: seq<string>)
    requires |gaps| == |tail| - 1 && forall g | g in gaps :: IsSpaceRun(g)
    ensures |tail| > 1 && tail[0] == "" ==> Interleave(tail, gaps) != [] && Interleave(tail, gaps)[0] == ' '
  {
    if |tail| > 1 && tail[0] == "" {
      assert gaps[0] in gaps;
      assert Interleave(tail, gaps) == gaps[0] + Interleave(tail[1..], gaps[1..]);
      assert gaps[0][0] in gaps[0];
    }
  }

  /** A run of spaces in front of split text adds an empty first piece and that run as the first gap. */
  lemma {:induction false} PrependRun(run: string, tail: seq<string>, gaps: seq<string>)
    requires IsSpaceRun(run) && ArePieces(tail) && (tail[0] != "" || |tail| == 1)
    requires |gaps| == |tail| - 1 && (forall g | g in gaps :: IsSpaceRun(g))
    ensures IsSpaceSplit(run + Interleave(tail, gaps), [""] + tail)
  {
    var r := [""] + tail;
    assert r[1..] == tail && ([run] + gaps)[1..] == gaps;
    assert Interleave(r, [run] + gaps) == run + Interleave(tail, gaps);
    assert forall i | 0 < i < |r| :: r[i] == tail[i - 1];
    assert ArePieces(r);
    assert forall g | g in [run] + gaps :: IsSpaceRun(g);
  }

  /** A text starting with another character: that character joins the first piece of the rest. */
  lemma {:induction false} SplitAfterChar(s: string)
    requires s != [] && s[0] != ' '
    requires IsSpaceSplit(s[1..], SplitSpaces(s[1..]))
    ensures IsSpaceSplit(s, SplitSpaces(s))
  {
    var r := SplitSpaces(s);
    var tail := SplitSpaces(s[1..]);
    var gaps :| |gaps| == |tail| - 1 && (forall g | g in gaps :: IsSpaceRun(g)) && s[1..] == Interleave(tail, gaps);
    InterleaveCons(s[0], tail, gaps);
    assert s == [s[0]] + s[1..];
    assert r[0] == [s[0]] + tail[0] && r[1..] == tail[1..];
    assert ' ' !in r[0];
    assert ArePieces(r);
    assert s == Interleave(r, gaps);
  }

  /** The converse: pieces joined by space runs split back into those pieces. */
  lemma {:induction false} SplitInterleave(pieces: seq<string>, gaps: seq<string>)
    requires |pieces| == |gaps| + 1 && ArePieces(pieces)
    requires forall g | g in gaps :: IsSpaceRun(g)
    ensures SplitSpaces(Interleave(pieces, gaps)) == pieces
    decreases |gaps|, |pieces[0]|
  {
    var s := Interleave(pieces, gaps);
    if pieces[0] == "" {
      if gaps == [] {
        assert s == "";
      } else {
        var rest := Interleave(pieces[1..], gaps[1..]);
        assert s == gaps[0] + rest;
        assert gaps[0] in gaps;
        assert s[0] == gaps[0][0] && gaps[0][0] in gaps[0];
        assert rest == [] || rest[0] != ' ' by {
          if |gaps| > 1 {
            assert pieces[1] != "" && ' ' !in pieces[1];
            assert rest[0] == pieces[1][0] && pieces[1][0] in pieces[1];
          } else {
            assert rest == pieces[1];
            if rest != [] {
              assert rest[0] in pieces[1];
            }
          }
        }
        DropSpacesRun(gaps[0], rest);
        assert forall i | 0 <= i < |pieces[1..]| :: pieces[1..][i] == pieces[i + 1];
        SplitInterleave(pieces[1..], gaps[1..]);
        assert pieces == [""] + pieces[1..];
      }
    } else {
      var w := pieces[0];
      var shorter := [w[1..]] + pieces[1..];
      assert shorter[1..] == pieces[1..];
      assert ' ' !in w[1..] by {
        assert forall c | c in w[1..] :: c in w;
      }
      assert forall i | 0 < i < |shorter| :: shorter[i] == pieces[i];
      InterleaveCons(w[0], shorter, gaps);
      assert [w[0]] + w[1..] == w;
      assert [[w[0]] + shorter[0]] + shorter[1..] == pieces;
      assert s == [w[0]] + Interleave(shorter, gaps);
      assert w[0] in w;
      assert s[1..] == Interleave(shorter, gaps);
      SplitInterleave(shorter, gaps);
    }
  }

  /**
   * `getCommands`: the pieces of the trimmed command part split at runs of
   * spaces, all but the first (the program name).
   */
  function GetCommands(usage: string): (r: seq<string>)
    ensures forall w | w in r :: ' ' !in w
    ensures exists program :: IsSpaceSplit(Trim(CommandPart(usage)), [program] + r)
  {
    var pieces := SplitSpaces(Trim(CommandPart(usage)));
    SplitSpacesRuns(Trim(CommandPart(usage)));
    assert pieces == [pieces[0]] + pieces[1..];
    pieces[1..]
  }

  // ---------------------------------------------------------------------------
  // Well-formed templates: program and command words, then placeholders
  // ---------------------------------------------------------------------------

  /** A word of the command part of a template: no white space, no `-`, `<` or `[`. */
  predicate IsWord(w: string)
  {
    |w| > 0 && forall c | c in w :: !IsJsWhitespace(c) && !IsCommandEnd(c)
  }

  /** ` <f1> <f2> ...` for the given names. */
  function Placeholders(fields: seq<string>): (r: string)
    ensures fields != [] ==> |r| > 1 && r[..2] == " <"
  {
    if fields == [] then "" else " <" + fields[0] + ">" + Placeholders(fields[1..])
  }

  /** A template: words separated by single spaces, then the placeholders. */
  function Template(words: seq<string>, fields: seq<string>): string
  {
    Join(words, " ") + Placeholders(fields)
  }

  /** Every placeholder written into a template is extracted again, in order. */
  lemma {:induction false} FieldsOfPlaceholders(fields: seq<string>)
    requires forall f | f in fields :: IsFieldName(f)
    ensures Fields(Placeholders(fields)) == fields
  {
    if fields != [] {
      var rest := Placeholders(fields[1..]);
      assert Placeholders(fields) == " " + ("<" + fields[0] + ">" + rest);
      assert fields[0] in fields;
      FieldsSkip(" ", "<" + fields[0] + ">" + rest);
      FieldsPlaceholder(fields[0], rest);
      FieldsOfPlaceholders(fields[1..]);
    }
  }

  /** Joined words never contain a character none of the words contains. */
  lemma {:induction false} JoinChars(words: seq<string>, c: char)
    requires c != ' ' && forall w | w in words :: c !in w
    ensures c !in Join(words, " ")
  {
    if |words| > 1 {
      JoinChars(words[1..], c);
    }
  }

  /** The round trip through a template: its fields are exactly the placeholders written into it. */
  lemma {:induction false} TemplateFields(words: seq<string>, fields: seq<string>)
    requires forall w | w in words :: IsWord(w)
    requires forall f | f in fields :: IsFieldName(f)
    ensures Fields(Template(words, fields)) == fields
  {
    JoinChars(words, '<');
    FieldsSkip(Join(words, " "), Placeholders(fields));
    FieldsOfPlaceholders(fields);
  }

  /** Dropping a run of spaces in front of text that does not start with one leaves that text. */
  lemma {:induction false} DropSpacesRun(spaces: string, rest: string)
    requires forall c | c in spaces :: c == ' '
    requires rest == [] || rest[0] != ' '
    ensures DropSpaces(spaces + rest) == rest
    decreases |spaces|
  {
    if spaces == [] {
      assert spaces + rest == rest;
    } else {
      assert spaces[0] in spaces;
      assert (spaces + rest)[1..] == spaces[1..] + rest;
      assert forall c | c in spaces[1..] :: c in spaces;
      DropSpacesRun(spaces[1..], rest);
    }
  }

  /** A word followed by a run of spaces and more text splits off as its own piece. */
  lemma {:induction false} SplitAfterWord(w: string, spaces: string, rest: string)
    requires ' ' !in w && rest != [] && rest[0] != ' '
    requires |spaces| > 0 && forall c | c in spaces :: c == ' '
    ensures SplitSpaces(w + spaces + rest) == [w] + SplitSpaces(rest)
    decreases |w|
  {
    if w == [] {
      assert w + spaces + rest == spaces + rest;
      assert spaces[0] in spaces;
      DropSpacesRun(spaces, rest);
    } else {
      assert (w + spaces + rest)[1..] == w[1..] + spaces + rest;
      SplitAfterWord(w[1..], spaces, rest);
      assert [w[0]] + w[1..] == w;
    }
  }

  /** A word without spaces is one piece. */
  lemma {:induction false} SplitWord(w: string)
    requires ' ' !in w
    ensures SplitSpaces(w) == [w]
    decreases |w|
  {
    if w != [] {
      SplitWord(w[1..]);
      assert [w[0]] + w[1..] == w;
    }
  }

  /** Splitting single-space-joined words gives the words back. */
  lemma {:induction false} SplitJoin(words: seq<string>)
    requires words != []
    requires forall w | w in words :: IsWord(w)
    ensures SplitSpaces(Join(words, " ")) == words
    decreases |words|
  {
    assert ' ' !in words[0] by {
      assert IsWord(words[0]);
    }
    if |words| == 1 {
      SplitWord(words[0]);
    } else {
      var rest := Join(words[1..], " ");
      JoinFirst(words[1..]);
      assert IsWord(words[1]) && words[1][0] in words[1];
      SplitAfterWord(words[0], " ", rest);
      SplitJoin(words[1..]);
    }
  }

  /** The joined text starts with the first word's first character and ends with the last word's last one. */
  lemma {:induction false} JoinFirst(words: seq<string>)
    requires words != []
    requires forall w | w in words :: IsWord(w)
    ensures var j := Join(words, " "); var last := words[|words| - 1];
      |j| >= |words[0]| > 0 && j[0] == words[0][0] && |last| > 0 && j[|j| - 1] == last[|last| - 1]
    decreases |words|
  {
    assert IsWord(words[0]);
    assert words[|words| - 1] in words;
    if |words| > 1 {
      var rest := words[1..];
      assert forall w | w in rest :: w in words;
      JoinFirst(rest);
      assert rest[|rest| - 1] == words[|words| - 1];
      assert Join(words, " ") == words[0] + " " + Join(rest, " ");
    }
  }

  /** Between the words of a join there are only single spaces: no other white space, no `-`, `<` or `[`. */
  lemma {:induction false} JoinCharsPlain(words: seq<string>)
    requires forall w | w in words :: IsWord(w)
    ensures forall c | c in Join(words, " ") :: c == ' ' || (!IsCommandEnd(c) && !IsJsWhitespace(c))
    decreases |words|
  {
    if words != [] {
      assert IsWord(words[0]);
      if |words| > 1 {
        JoinCharsPlain(words[1..]);
      }
    }
  }

  /** Text without a command-ending character is kept whole before whatever follows it. */
  lemma {:induction false} CommandPartSkip(p: string, rest: string)
    requires forall c | c in p :: !IsCommandEnd(c)
    ensures CommandPart(p + rest) == p + CommandPart(rest)
    decreases |p|
  {
    if p != [] {
      assert p[0] in p;
      assert (p + rest)[0] == p[0];
      assert (p + rest)[1..] == p[1..] + rest;
      CommandPartSkip(p[1..], rest);
      assert [p[0]] + p[1..] == p;
    } else {
      assert p + rest == rest;
    }
  }

  /** Trailing spaces after text are trimmed away. */
  lemma {:induction false} TrimEndSpaces(text: string, spaces: string)
    requires forall c | c in spaces :: c == ' '
    ensures TrimEnd(text + spaces) == TrimEnd(text)
    decreases |spaces|
  {
    if spaces == [] {
      assert text + spaces == text;
    } else {
      var n := |spaces| - 1;
      var s := text + spaces;
      assert spaces[n] in spaces;
      assert s[|s| - 1] == ' ';
      assert s[..|s| - 1] == text + spaces[..n];
      assert TrimEnd(s) == TrimEnd(text + spaces[..n]);
      assert forall c | c in spaces[..n] :: c in spaces;
      TrimEndSpaces(text, spaces[..n]);
    }
  }

  /**
   * The command words are the words before the first `-`, `<` or `[` except
   * the first one (the program name): words joined by single spaces, then
   * any run of spaces, then the end of the command part.
   */
  lemma {:induction false} CommandsOfWords(words: seq<string>, spaces: string, tail: string)
    requires words != [] && forall w | w in words :: IsWord(w)
    requires forall c | c in spaces :: c == ' '
    requires tail == [] || IsCommandEnd(tail[0])
    ensures GetCommands(Join(words, " ") + spaces + tail) == words[1..]
  {
    var j := Join(words, " ");
    JoinCharsPlain(words);
    assert Plain(j) && Plain(spaces);
    PlainConcat(j, spaces);
    CommandPartEnds(j + spaces, tail);
    JoinFirst(words);
    var first, last := words[0], words[|words| - 1];
    assert first in words && last in words;
    assert IsWord(first) && IsWord(last);
    assert first[0] in first && last[|last| - 1] in last;
    TrimTrailingSpaces(j, spaces);
    SplitJoin(words);
  }

  /** Without any word before the placeholders there is no command word. */
  lemma {:induction false} NoWordsNoCommands(tail: string)
    requires tail == [] || IsCommandEnd(tail[0])
    ensures GetCommands(" " + tail) == []
  {
    assert (" " + tail)[1..] == tail;
    assert CommandPart(tail) == [];
    assert CommandPart(" " + tail) == " ";
    assert TrimStart(" ") == [];
  }

  /**
   * The round trip through a template's command part: the command words are
   * all words but the first (the program name), so their count is the
   * number of words minus one, and never negative.
   */
  lemma {:induction false} TemplateCommands(words: seq<string>, fields: seq<string>)
    requires forall w | w in words :: IsWord(w)
    ensures GetCommands(Template(words, fields)) == if words == [] then [] else words[1..]
  {
    var ph := Placeholders(fields);
    var j := Join(words, " ");
    assert Template(words, fields) == j + ph;
    if fields == [] {
      assert j + ph == j + "" + "";
      if words != [] {
        CommandsOfWords(words, "", "");
      }
    } else {
      assert ph == " " + ph[1..];
      assert ph[1..][0] == '<';
      if words == [] {
        assert j + ph == " " + ph[1..];
        NoWordsNoCommands(ph[1..]);
      } else {
        assert j + ph == j + " " + ph[1..];
        CommandsOfWords(words, " ", ph[1..]);
      }
    }
  }

  /** Text without `-`, `<` or `[`. */
  predicate Plain(s: string)
  {
    forall c | c in s :: !IsCommandEnd(c)
  }

  /** The command part of plain text followed by a `-`, `<` or `[` (or nothing) is that text. */
  lemma {:induction false} CommandPartEnds(p: string, tail: string)
    requires Plain(p)
    requires tail == [] || IsCommandEnd(tail[0])
    ensures CommandPart(p + tail) == p
  {
    CommandPartSkip(p, tail);
    assert CommandPart(tail) == [];
    assert p + [] == p;
  }

  /** Trimming text that starts and ends with a non-white-space character drops exactly the spaces after it. */
  lemma {:induction false} TrimTrailingSpaces(text: string, spaces: string)
    requires text != [] && !IsJsWhitespace(text[0]) && !IsJsWhitespace(text[|text| - 1])
    requires forall c | c in spaces :: c == ' '
    ensures Trim(text + spaces) == text
  {
    assert (text + spaces)[0] == text[0];
    assert TrimStart(text + spaces) == text + spaces;
    TrimEndSpaces(text, spaces);
    assert TrimEnd(text) == text;
  }

  /** Two words with a run of spaces between them split into those two words. */
  lemma {:induction false} SplitTwoWords(prog: string, s1: string, cmd: string)
    requires IsWord(prog) && IsWord(cmd)
    requires |s1| > 0 && forall c | c in s1 :: c == ' '
    ensures SplitSpaces(prog + s1 + cmd) == [prog, cmd]
  {
    assert cmd[0] in cmd;
    SplitAfterWord(prog, s1, cmd);
    SplitWord(cmd);
  }

  /** The concatenation of plain texts is plain. */
  lemma {:induction false} PlainConcat(a: string, b: string)
    requires Plain(a) && Plain(b)
    ensures Plain(a + b)
  {
  }

  /**
   * A program name and one command word, each followed by a run of spaces
   * (one or more after the program name), and then the end of the command
   * part: the command word is the only command.
   */
  lemma {:induction false} CommandsOfTwoWords(prog: string, cmd: string, s1: string, s2: string, tail: string)
    requires IsWord(prog) && IsWord(cmd)
    requires |s1| > 0 && forall c | c in s1 :: c == ' '
    requires forall c | c in s2 :: c == ' '
    requires tail == [] || IsCommandEnd(tail[0])
    ensures GetCommands(prog + s1 + cmd + s2 + tail) == [cmd]
  {
    var text := prog + s1 + cmd;
    assert Plain(prog) && Plain(s1) && Plain(cmd) && Plain(s2);
    PlainConcat(prog, s1);
    PlainConcat(prog + s1, cmd);
    PlainConcat(text, s2);
    CommandPartEnds(text + s2, tail);
    assert prog[0] in prog && text[0] == prog[0];
    assert cmd[|cmd| - 1] in cmd && text[|text| - 1] == cmd[|cmd| - 1];
    TrimTrailingSpaces(text, s2);
    SplitTwoWords(prog, s1, cmd);
  }

  /** Pieces free of `-`, `<` and `[` joined by space runs are free of them too. */
  lemma {:induction false} PlainInterleave(pieces: seq<string>, gaps: seq<string>)
    requires |pieces| == |gaps| + 1 && forall g | g in gaps :: IsSpaceRun(g)
    requires forall i | 0 <= i < |pieces| :: Plain(pieces[i])
    ensures Plain(Interleave(pieces, gaps))
    decreases |gaps|
  {
    if gaps != [] {
      assert gaps[0] in gaps && IsSpaceRun(gaps[0]) && Plain(gaps[0]);
      assert forall i | 0 <= i < |pieces[1..]| :: pieces[1..][i] == pieces[i + 1];
      PlainInterleave(pieces[1..], gaps[1..]);
      PlainConcat(pieces[0], gaps[0]);
      PlainConcat(pieces[0] + gaps[0], Interleave(pieces[1..], gaps[1..]));
    }
  }

  /** Joined pieces start with the first piece's first character and end with the last piece's last one. */
  lemma {:induction false} InterleaveEnds(pieces: seq<string>, gaps: seq<string>)
    requires |pieces| == |gaps| + 1
    requires forall i | 0 <= i < |pieces| :: pieces[i] != ""
    ensures var t := Interleave(pieces, gaps); var last := pieces[|pieces| - 1];
      |t| >= |pieces[0]| && t[0] == pieces[0][0] && t[|t| - 1] == last[|last| - 1]
    decreases |gaps|
  {
    if gaps != [] {
      assert forall i | 0 <= i < |pieces[1..]| :: pieces[1..][i] == pieces[i + 1];
      InterleaveEnds(pieces[1..], gaps[1..]);
    }
  }

  /** Leading white space before text that starts with something else is trimmed away. */
  lemma {:induction false} TrimStartLead(lead: string, text: string)
    requires AllWhitespace(lead)
    requires text != [] && !IsJsWhitespace(text[0])
    ensures TrimStart(lead + text) == text
    decreases |lead|
  {
    if lead == [] {
      assert lead + text == text;
    } else {
      assert (lead + text)[0] == lead[0] && IsJsWhitespace(lead[0]);
      assert AllWhitespace(lead[1..]) by {
        forall k | 0 <= k < |lead| - 1
          ensures IsJsWhitespace(lead[1..][k])
        {
          assert lead[1..][k] == lead[k + 1];
        }
      }
      assert (lead + text)[1..] == lead[1..] + text;
      TrimStartLead(lead[1..], text);
    }
  }

  /** Trailing white space after text that ends with something else is trimmed away. */
  lemma {:induction false} TrimEndTrail(text: string, trail: string)
    requires AllWhitespace(trail)
    requires text != [] && !IsJsWhitespace(text[|text| - 1])
    ensures TrimEnd(text + trail) == text
    decreases |trail|
  {
    if trail == [] {
      assert text + trail == text;
    } else {
      var n := |trail| - 1;
      assert (text + trail)[|text + trail| - 1] == trail[n] && IsJsWhitespace(trail[n]);
      assert AllWhitespace(trail[..n]) by {
        forall k | 0 <= k < n
          ensures IsJsWhitespace(trail[..n][k])
        {
          assert trail[..n][k] == trail[k];
        }
      }
      assert (text + trail)[..|text + trail| - 1] == text + trail[..n];
      TrimEndTrail(text, trail[..n]);
    }
  }

  /** White space never ends the command part. */
  lemma {:induction false} WhitespacePlain(w: string)
    requires AllWhitespace(w)
    ensures Plain(w)
  {
    forall c | c in w
      ensures !IsCommandEnd(c)
    {
      var k :| 0 <= k < |w| && w[k] == c;
    }
  }

  /**
   * The converse of the contract of `GetCommands`: white space, then
   * non-empty pieces separated by runs of spaces, then white space and the
   * end of the command part give every piece but the first as commands.
   */
  lemma {:induction false} CommandsOfPieces(lead: string, pieces: seq<string>, gaps: seq<string>, trail: string, tail: string)
    requires AllWhitespace(lead)
    requires |pieces| == |gaps| + 1 && forall g | g in gaps :: IsSpaceRun(g)
    requires forall i | 0 <= i < |pieces| :: pieces[i] != "" && ' ' !in pieces[i] && Plain(pieces[i])
    requires !IsJsWhitespace(pieces[0][0])
    requires var last := pieces[|pieces| - 1]; !IsJsWhitespace(last[|last| - 1])
    requires AllWhitespace(trail)
    requires tail == [] || IsCommandEnd(tail[0])
    ensures GetCommands(lead + Interleave(pieces, gaps) + trail + tail) == pieces[1..]
  {
    var t := Interleave(pieces, gaps);
    PlainInterleave(pieces, gaps);
    InterleaveEnds(pieces, gaps);
    TrimmedCommandPart(lead, t, trail, tail);
    assert ArePieces(pieces);
    SplitInterleave(pieces, gaps);
  }

  /** Plain text between white space, followed by the end of the command part, is what remains after trimming. */
  lemma {:induction false} TrimmedCommandPart(lead: string, t: string, trail: string, tail: string)
    requires AllWhitespace(lead)
    requires Plain(t) && t != [] && !IsJsWhitespace(t[0]) && !IsJsWhitespace(t[|t| - 1])
    requires AllWhitespace(trail)
    requires tail == [] || IsCommandEnd(tail[0])
    ensures Trim(CommandPart(lead + t + trail + tail)) == t
  {
    var u := lead + t + trail;
    assert CommandPart(u + tail) == u by {
      WhitespacePlain(lead);
      WhitespacePlain(trail);
      PlainConcat(lead, t);
      PlainConcat(lead + t, trail);
      CommandPartEnds(u, tail);
    }
    assert TrimStart(u) == t + trail by {
      assert u == lead + (t + trail);
      TrimStartLead(lead, t + trail);
    }
    assert TrimEnd(t + trail) == t by {
      TrimEndTrail(t, trail);
    }
  }

  /** A non-empty run of lower-case ASCII letters is a word. */
  lemma {:induction false} LowerCaseWord(w: string)
    requires |w| > 0 && forall i | 0 <= i < |w| :: 'a' <= w[i] <= 'z'
    ensures IsWord(w)
  {
    forall c | c in w
      ensures !IsJsWhitespace(c) && !IsCommandEnd(c)
    {
      var i :| 0 <= i < |w| && w[i] == c;
    }
  }

  /**
   * The command part ends at the first `-`, even inside a word:
   * `tinify set-key <key> <mode> <location>` has the single command word
   * `set`, not `set-key`.
   */
  lemma {:induction false} GetCommandsStopsAtHyphen(usage: string)
    requires usage == "tinify" + " " + "set" + "-key <key> <mode> <location>"
    ensures GetCommands(usage) == ["set"]
  {
    var prog, cmd, tail := "tinify", "set", "-key <key> <mode> <location>";
    assert prog + " " + cmd + tail == prog + " " + cmd + "" + tail;
    LowerCaseWord(prog);
    LowerCaseWord(cmd);
    CommandsOfTwoWords(prog, cmd, " ", "", tail);
  }

  /** Runs of spaces separate words like single ones: `go   run  -v <f1> [f2]` has one command word. */
  lemma {:induction false} CommandCountWithSpaceRuns(usage: string)
    requires usage == "go" + "   " + "run" + "  " + "-v <f1> [f2]"
    ensures GetCommands(usage) == ["run"]
  {
    var prog, cmd, tail := "go", "run", "-v <f1> [f2]";
    LowerCaseWord(prog);
    LowerCaseWord(cmd);
    CommandsOfTwoWords(prog, cmd, "   ", "  ", tail);
  }

  /**
   * Leading white space and runs of spaces between three words:
   * ` app  a   b <x>` has the two command words `a` and `b`.
   */
  lemma {:induction false} CommandsAfterLeadingSpace(usage: string)
    requires usage == " " + "app" + "  " + "a" + "   " + "b" + " " + "<x>"
    ensures GetCommands(usage) == ["a", "b"]
  {
    var pieces, gaps := ["app", "a", "b"], ["  ", "   "];
    LowerCaseWord("app");
    LowerCaseWord("a");
    LowerCaseWord("b");
    assert forall i | 0 <= i < 3 :: IsWord(pieces[i]);
    assert pieces[1..][1..] == ["b"] && gaps[1..][1..] == [];
    assert Interleave(pieces, gaps) == "app" + "  " + ("a" + "   " + "b");
    assert usage == " " + Interleave(pieces, gaps) + " " + "<x>";
    assert forall g | g in gaps :: IsSpaceRun(g);
    CommandsOfPieces(" ", pieces, gaps, " ", "<x>");
    assert pieces[1..] == ["a", "b"];
  }

  // ---------------------------------------------------------------------------
  // parseUsage
  // ---------------------------------------------------------------------------

  /** What `parseUsage` returns. */
  datatype Usage = Usage(requiredFields: seq<string>, requiredValues: map<string, Value>, missingFields: seq<string>)

  /** The key a field is stored under: the rest marker is dropped, other names are kept. */
  function FieldKey(field: string): (r: string)
    ensures r == Normalize(field)
  {
    if IsRestField(field) then Normalize(field) else field
  }

  /**
   * The value the field at `index` gets: a rest field takes every positional
   * from its aligned index on, any other field the one positional at that
   * index, or `undefined` past the end.
   */
  function AlignedValue(field: string, index: nat, positionalArgs: seq<string>, cmdCount: nat): (r: Value)
    ensures IsRestField(field) ==> r == Arr(StrValues(JsSlice(positionalArgs, index + cmdCount)))
    ensures !IsRestField(field) && index + cmdCount < |positionalArgs| ==> r == Str(positionalArgs[index + cmdCount])
    ensures !IsRestField(field) && index + cmdCount >= |positionalArgs| ==> r == Undefined
  {
    var at := index + cmdCount;
    if IsRestField(field) then Arr(StrValues(JsSlice(positionalArgs, at)))
    else if at < |positionalArgs| then Str(positionalArgs[at])
    else Undefined
  }

  /**
   * The `reduce` that builds `requiredValues`: fields are folded left to
   * right, and a later field overwrites an earlier one under the same key.
   */
  function RequiredValues(fields: seq<string>, positionalArgs: seq<string>, cmdCount: nat): (r: map<string, Value>)
    decreases |fields|
    ensures r.Keys == set i | 0 <= i < |fields| :: Normalize(fields[i])
  {
    if fields == [] then map[]
    else
      var n := |fields| - 1;
      assert (set i | 0 <= i < |fields| :: Normalize(fields[i])) ==
        (set i | 0 <= i < n :: Normalize(fields[..n][i])) + {Normalize(fields[n])} by {
        assert forall i | 0 <= i < n :: fields[..n][i] == fields[i];
      }
      RequiredValues(fields[..n], positionalArgs, cmdCount)[FieldKey(fields[n]) := AlignedValue(fields[n], n, positionalArgs, cmdCount)]
  }

  /**
   * The field at `i` decides the value of its key unless a later field has
   * the same key: the last placeholder of a name wins.
   */
  lemma {:induction false} RequiredValuesLastWins(fields: seq<string>, positionalArgs: seq<string>, cmdCount: nat, i: nat)
    requires i < |fields|
    requires forall j | i < j < |fields| :: Normalize(fields[j]) != Normalize(fields[i])
    ensures Normalize(fields[i]) in RequiredValues(fields, positionalArgs, cmdCount)
    ensures RequiredValues(fields, positionalArgs, cmdCount)[Normalize(fields[i])] ==
      AlignedValue(fields[i], i, positionalArgs, cmdCount)
    decreases |fields|
  {
    var n := |fields| - 1;
    var prefix := fields[..n];
    var key := Normalize(fields[i]);
    var last := FieldKey(fields[n]);
    var v := AlignedValue(fields[n], n, positionalArgs, cmdCount);
    var before := RequiredValues(prefix, positionalArgs, cmdCount);
    var whole := RequiredValues(fields, positionalArgs, cmdCount);
    assert whole == before[last := v];
    if i < n {
      assert key in before && before[key] == AlignedValue(fields[i], i, positionalArgs, cmdCount) by {
        assert prefix[i] == fields[i];
        assert forall j | i < j < |prefix| :: Normalize(prefix[j]) != Normalize(prefix[i]) by {
          assert forall j | i < j < n :: prefix[j] == fields[j];
        }
        RequiredValuesLastWins(prefix, positionalArgs, cmdCount, i);
      }
      assert last != key;
      assert whole[key] == before[key];
    } else {
      assert last == key;
      assert whole[key] == v;
    }
  }

  /** `missingFields`: the normalized fields from `positionalArgs.length - cmdCount` on, with slice semantics. */
  function MissingFields(normalized: seq<string>, positionalCount: nat, cmdCount: nat): (r: seq<string>)
    ensures IsSuffix(r, normalized)
  {
    JsSliceIsSuffix(normalized, positionalCount - cmdCount);
    JsSlice(normalized, positionalCount - cmdCount)
  }

  /**
   * The missing fields are always a suffix of the required ones: none once
   * every field has its positional, all of them when only the command words
   * were given, and, with fewer positionals than command words, the last
   * `cmdCount - positionalCount` fields (the start counts back from the end).
   */
  lemma {:induction false} MissingFieldsSuffix(normalized: seq<string>, positionalCount: nat, cmdCount: nat)
    ensures positionalCount >= cmdCount + |normalized| ==> MissingFields(normalized, positionalCount, cmdCount) == []
    ensures positionalCount == cmdCount ==> MissingFields(normalized, positionalCount, cmdCount) == normalized
    ensures cmdCount <= positionalCount <= cmdCount + |normalized| ==>
      MissingFields(normalized, positionalCount, cmdCount) == normalized[positionalCount - cmdCount..]
    ensures positionalCount < cmdCount ==>
      |MissingFields(normalized, positionalCount, cmdCount)| ==
        (if cmdCount - positionalCount <= |normalized| then cmdCount - positionalCount else |normalized|)
  {
  }

  /** The fields of a template with the rest marker dropped. */
  function NormalizeAll(fields: seq<string>): (r: seq<string>)
    ensures |r| == |fields| && forall i | 0 <= i < |fields| :: r[i] == Normalize(fields[i])
  {
    seq(|fields|, i requires 0 <= i < |fields| => Normalize(fields[i]))
  }

  /**
   * A program name followed by placeholders only: the placeholders are the
   * fields, and there is no command word.
   */
  lemma {:induction false} ProgramWithFields(prog: string, fields: seq<string>)
    requires IsWord(prog)
    requires forall f | f in fields :: IsFieldName(f)
    ensures Fields(prog + Placeholders(fields)) == fields
    ensures GetCommands(prog + Placeholders(fields)) == []
  {
    assert Template([prog], fields) == prog + Placeholders(fields);
    TemplateFields([prog], fields);
    TemplateCommands([prog], fields);
  }

  /**
   * `tinify <filename> <imgs...>`: a plain field and a rest field after the
   * program name, and no command word.
   */
  lemma {:induction false} TinifyTemplate(usage: string)
    requires usage == "tinify" + " <" + "filename" + ">" + " <" + "imgs..." + ">"
    ensures Fields(usage) == ["filename", "imgs..."] && GetCommands(usage) == []
  {
    var fields := ["filename", "imgs..."];
    assert Placeholders(fields[1..]) == " <" + "imgs..." + ">" + Placeholders([]);
    assert Placeholders(fields) == " <" + "filename" + ">" + Placeholders(fields[1..]);
    assert usage == "tinify" + Placeholders(fields);
    LowerCaseWord("tinify");
    assert IsFieldName("filename") by {
      assert forall i | 0 <= i < 8 :: "filename"[i] != '>';
    }
    assert IsFieldName("imgs...") by {
      assert forall i | 0 <= i < 7 :: "imgs..."[i] != '>';
    }
    ProgramWithFields("tinify", fields);
  }

  /**
   * A plain field followed by a rest field: the plain one takes the
   * positional after the command words, the rest one everything after it.
   */
  lemma {:induction false} PlainThenRest(a: string, b: string, positionalArgs: seq<string>, cmdCount: nat)
    requires !IsRestField(a) && a != b
    ensures RequiredValues([a, b + "..."], positionalArgs, cmdCount) ==
      map[a := AlignedValue(a, 0, positionalArgs, cmdCount), b := Arr(StrValues(JsSlice(positionalArgs, 1 + cmdCount)))]
  {
    var fields := [a, b + "..."];
    NormalizeRestMarker(b);
    assert fields[..1] == [a] && [a][..0] == [];
    assert RequiredValues([a], positionalArgs, cmdCount) == map[a := AlignedValue(a, 0, positionalArgs, cmdCount)];
    assert FieldKey(b + "...") == b;
  }

  /** The two fields of `tinify <filename> <imgs...>`, normalized. */
  lemma {:induction false} TinifyNormalized(fields: seq<string>)
    requires fields == ["filename", "imgs" + "..."]
    ensures !IsRestField(fields[0]) && "filename" != "imgs"
    ensures NormalizeAll(fields) == ["filename", "imgs"]
  {
    assert "filename"[5..] != "...";
    assert "filename"[0] != "imgs"[0];
    NormalizeRestMarker("imgs");
  }

  /**
   * With no positionals, both fields of `tinify <filename> <imgs...>` are
   * missing; `filename` is undefined and `imgs` empty.
   */
  lemma {:induction false} TinifyWithoutArguments(fields: seq<string>)
    requires fields == ["filename", "imgs" + "..."]
    ensures RequiredValues(fields, [], 0) == map["filename" := Undefined, "imgs" := Arr([])]
    ensures MissingFields(NormalizeAll(fields), 0, 0) == ["filename", "imgs"]
  {
    TinifyNormalized(fields);
    PlainThenRest("filename", "imgs", [], 0);
  }

  /**
   * With three positionals, the first goes to `filename`, the other two to
   * `imgs`, and no field is missing.
   */
  lemma {:induction false} TinifyWithArguments(fields: seq<string>, positionalArgs: seq<string>)
    requires fields == ["filename", "imgs" + "..."]
    requires positionalArgs == ["a.txt", "1.png", "2.png"]
    ensures RequiredValues(fields, positionalArgs, 0) ==
      map["filename" := Str("a.txt"), "imgs" := Arr([Str("1.png"), Str("2.png")])]
    ensures MissingFields(NormalizeAll(fields), 3, 0) == []
  {
    TinifyNormalized(fields);
    PlainThenRest("filename", "imgs", positionalArgs, 0);
    assert AlignedValue("filename", 0, positionalArgs, 0) == Str("a.txt");
    assert JsSlice(positionalArgs, 1) == ["1.png", "2.png"];
    assert StrValues(["1.png", "2.png"]) == [Str("1.png"), Str("2.png")];
  }

  /**
   * `parseUsage`: the placeholders in order with the rest marker dropped,
   * the value aligned with each of them, and the ones the positionals do not
   * reach.
   */
  method ParseUsage(usage: string, positionalArgs: seq<string>) returns (u: Usage)
    ensures u.requiredFields == NormalizeAll(Fields(usage))
    ensures u.requiredValues == RequiredValues(Fields(usage), positionalArgs, |GetCommands(usage)|)
    ensures forall k :: k in u.requiredValues <==> k in u.requiredFields
    ensures u.missingFields == MissingFields(u.requiredFields, |positionalArgs|, |GetCommands(usage)|)
    ensures IsSuffix(u.missingFields, u.requiredFields)
  {
    var requiredFields := ParseRequiredFields(usage);
    var cmdCount := |GetCommands(usage)|;
    var requiredValues := RequiredValues(requiredFields, positionalArgs, cmdCount);
    var normalized := NormalizeAll(requiredFields);
    var missingFields := MissingFields(normalized, |positionalArgs|, cmdCount);
    u := Usage(normalized, requiredValues, missingFields);
  }
}
