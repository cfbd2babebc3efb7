/**
 * The two helpers of the utility file: `indentString`, which prefixes the
 * non-blank lines of a text with spaces, and `omit`, which copies an object
 * without some of its keys.
 */
module Util {
  import opened Wrappers
  import opened JsValues

  // ---------------------------------------------------------------------------
  // Lines of a text.  '\n' is the only line terminator of the model.
  // ---------------------------------------------------------------------------

  /** The characters the regular-expression class `\s` matches. */
  predicate IsWhitespace(c: char) {
    c == ' ' || c == '\t' || c == '\n' || c == '\U{000B}' || c == '\U{000C}' || c == '\r'
    || c == '\U{00A0}' || c == '\U{1680}' || ('\U{2000}' <= c <= '\U{200A}')
    || c == '\U{2028}' || c == '\U{2029}' || c == '\U{202F}' || c == '\U{205F}'
    || c == '\U{3000}' || c == '\U{FEFF}'
  }

  predicate WhitespaceOnly(line: string) {
    forall i :: 0 <= i < |line| ==> IsWhitespace(line[i])
  }

  predicate NoNewline(line: string) {
    forall i :: 0 <= i < |line| ==> line[i] != '\n'
  }

  /** The length of the first line of `s`: the index of its first '\n', or |s|. */
  function LineEnd(s: string): (n: nat)
    ensures n <= |s|
    ensures NoNewline(s[..n])
    ensures n < |s| ==> s[n] == '\n'
    decreases |s|
  {
    if s == [] || s[0] == '\n' then 0 else 1 + LineEnd(s[1..])
  }

  /** The lines of `s`, split at every '\n'; a text of k newlines has k + 1 lines. */
  function Lines(s: string): (ls: seq<string>)
    ensures |ls| >= 1
    ensures forall i :: 0 <= i < |ls| ==> NoNewline(ls[i])
    decreases |s|
  {
    var n := LineEnd(s);
    if n == |s| then [s] else [s[..n]] + Lines(s[n + 1..])
  }

  /** The lines put back together, separated by '\n'. */
  function Join(ls: seq<string>): string
    requires |ls| >= 1
    decreases |ls|
  {
    if |ls| == 1 then ls[0] else ls[0] + "\n" + Join(ls[1..])
  }

  lemma {:induction false} JoinLines(s: string)
    ensures Join(Lines(s)) == s
    decreases |s|
  {
    var n := LineEnd(s);
    if n < |s| {
      var rest := s[n + 1..];
      var ls := Lines(s);
      JoinLines(rest);
      assert ls == [s[..n]] + Lines(rest);
      assert ls[0] == s[..n] && ls[1..] == Lines(rest);
      assert Join(ls) == s[..n] + "\n" + Join(Lines(rest));
      assert s == s[..n] + "\n" + rest;
    }
  }

  lemma {:induction false} LineEndOf(t: string, rest: string)
    requires NoNewline(t)
    requires rest == [] || rest[0] == '\n'
    ensures LineEnd(t + rest) == |t|
    decreases |t|
  {
    if t == [] {
      assert t + rest == rest;
    } else {
      var s := t + rest;
      assert s[0] == t[0] && s[0] != '\n';
      assert s[1..] == t[1..] + rest;
      assert NoNewline(t[1..]) by {
        forall i | 0 <= i < |t| - 1 ensures t[1..][i] != '\n' {
          assert t[1..][i] == t[i + 1];
        }
      }
      LineEndOf(t[1..], rest);
    }
  }

  lemma LinesOfLine(t: string)
    requires NoNewline(t)
    ensures Lines(t) == [t]
  {
    LineEndOf(t, []);
    assert t + [] == t;
  }

  lemma LinesCons(t: string, u: string)
    requires NoNewline(t)
    ensures Lines(t + "\n" + u) == [t] + Lines(u)
  {
    var s := t + "\n" + u;
    assert s == t + ("\n" + u);
    LineEndOf(t, "\n" + u);
    assert s[..|t|] == t;
    assert s[|t| + 1..] == u;
  }

  // ---------------------------------------------------------------------------
  // indentString
  // ---------------------------------------------------------------------------

  datatype RangeError = RangeError(message: string)

  function Spaces(n: nat): (pad: string)
    ensures |pad| == n
    ensures forall i :: 0 <= i < n ==> pad[i] == ' '
  {
    seq(n, _ => ' ')
  }

  /**
   * Whether the lookahead `\s*$` of the pattern `/^(?!\s*$)/gm` succeeds at the
   * start of `s`: some run of whitespace reaches the end of the text or a line
   * terminator.  Since '\n' is itself whitespace, the run may stop at the first one.
   */
  predicate BlankAhead(s: string)
    decreases |s|
  {
    s == [] || s[0] == '\n' || (IsWhitespace(s[0]) && BlankAhead(s[1..]))
  }

  lemma {:induction false} BlankAheadIsBlankLine(s: string)
    ensures BlankAhead(s) <==> WhitespaceOnly(s[..LineEnd(s)])
    decreases |s|
  {
    if s != [] && s[0] != '\n' {
      BlankAheadIsBlankLine(s[1..]);
      assert s[..LineEnd(s)] == [s[0]] + s[1..][..LineEnd(s[1..])];
    }
  }

  /**
   * `s.replace(/^(?!\s*$)/gm, pad)` where `s` starts at a line start: at every
   * line start whose lookahead fails, `pad` is inserted; everything else is copied.
   */
  function Indent(s: string, pad: string): string
    decreases |s|
  {
    var n := LineEnd(s);
    var head := if BlankAhead(s) then "" else pad;
    if n == |s| then head + s else head + s[..n + 1] + Indent(s[n + 1..], pad)
  }

  /** What indentString does to one line. */
  function IndentLine(line: string, pad: string): string {
    if WhitespaceOnly(line) then line else pad + line
  }

  /**
   * indentString(string, count = 1): a negative count is a RangeError, a zero
   * count returns the input, any other count indents by that many spaces.
   */
  function IndentString(s: string, count: int := 1): (r: Result<string, RangeError>)
    ensures r.Err? <==> count < 0
    ensures count == 0 ==> r == Ok(s)
  {
    if count < 0 then
      Err(RangeError("Expected `count` to be at least 0, got `" + IntToString(count) + "`"))
    else if count == 0 then
      Ok(s)
    else
      Ok(Indent(s, Spaces(count)))
  }

  /** IndentLine applied to every line. */
  function IndentEach(ls: seq<string>, pad: string): seq<string>
    decreases |ls|
  {
    if ls == [] then [] else [IndentLine(ls[0], pad)] + IndentEach(ls[1..], pad)
  }

  lemma {:induction false} IndentEachIndex(ls: seq<string>, pad: string)
    ensures |IndentEach(ls, pad)| == |ls|
    ensures forall i :: 0 <= i < |ls| ==> IndentEach(ls, pad)[i] == IndentLine(ls[i], pad)
    decreases |ls|
  {
    if ls != [] {
      IndentEachIndex(ls[1..], pad);
      forall i | 0 < i < |ls| ensures IndentEach(ls, pad)[i] == IndentLine(ls[i], pad) {
        assert IndentEach(ls, pad)[i] == IndentEach(ls[1..], pad)[i - 1];
        assert ls[1..][i - 1] == ls[i];
      }
    }
  }

  lemma IndentLineNoNewline(line: string, pad: string)
    requires NoNewline(line) && NoNewline(pad)
    ensures NoNewline(IndentLine(line, pad))
  {
    if !WhitespaceOnly(line) {
      var r := pad + line;
      forall i | 0 <= i < |r| ensures r[i] != '\n' {
        if i >= |pad| { assert r[i] == line[i - |pad|]; }
      }
    }
  }

  /** The last line: Indent treats it as IndentLine does. */
  lemma IndentLastLine(t: string, pad: string)
    requires NoNewline(t)
    ensures Indent(t, pad) == IndentLine(t, pad)
  {
    LineEndOf(t, []);
    assert t + [] == t;
    BlankAheadIsBlankLine(t);
    assert t[..|t|] == t;
  }

  /** A line followed by '\n': Indent treats it as IndentLine does and goes on after the '\n'. */
  lemma IndentLineThenRest(t: string, u: string, pad: string)
    requires NoNewline(t)
    ensures Indent(t + "\n" + u, pad) == IndentLine(t, pad) + "\n" + Indent(u, pad)
  {
    var s := t + "\n" + u;
    assert s == t + ("\n" + u);
    LineEndOf(t, "\n" + u);
    assert s[..|t|] == t;
    assert s[..|t| + 1] == t + "\n";
    assert s[|t| + 1..] == u;
    BlankAheadIsBlankLine(s);
  }

  /** Indenting joined lines is joining the indented lines. */
  lemma {:induction false} IndentJoin(ls: seq<string>, pad: string)
    requires |ls| >= 1
    requires forall i :: 0 <= i < |ls| ==> NoNewline(ls[i])
    ensures Indent(Join(ls), pad) == Join(IndentEach(ls, pad))
    decreases |ls|
  {
    IndentEachCons(ls[0], ls[1..], pad);
    assert [ls[0]] + ls[1..] == ls;
    if |ls| == 1 {
      IndentLastLine(ls[0], pad);
      assert IndentEach(ls[1..], pad) == [];
    } else {
      IndentJoin(ls[1..], pad);
      IndentLineThenRest(ls[0], Join(ls[1..]), pad);
      IndentEachIndex(ls[1..], pad);
    }
  }

  /** Lines without '\n', joined and split again, are the same lines. */
  lemma {:induction false} LinesJoin(ls: seq<string>)
    requires |ls| >= 1
    requires forall i :: 0 <= i < |ls| ==> NoNewline(ls[i])
    ensures Lines(Join(ls)) == ls
    decreases |ls|
  {
    if |ls| == 1 {
      LinesOfLine(ls[0]);
    } else {
      LinesJoin(ls[1..]);
      LinesCons(ls[0], Join(ls[1..]));
      assert [ls[0]] + ls[1..] == ls;
    }
  }

  lemma IndentByLines(s: string, pad: string)
    requires NoNewline(pad)
    ensures Lines(Indent(s, pad)) == IndentEach(Lines(s), pad)
  {
    var ls := Lines(s);
    JoinLines(s);
    IndentJoin(ls, pad);
    IndentEachIndex(ls, pad);
    var rs := IndentEach(ls, pad);
    forall i | 0 <= i < |rs| ensures NoNewline(rs[i]) {
      IndentLineNoNewline(ls[i], pad);
    }
    LinesJoin(rs);
  }

  lemma IndentEachCons(line: string, ls: seq<string>, pad: string)
    ensures IndentEach([line] + ls, pad) == [IndentLine(line, pad)] + IndentEach(ls, pad)
  {
    assert ([line] + ls)[1..] == ls;
  }

  /**
   * A count of zero or more keeps the number and order of lines and prefixes
   * exactly the lines that are not whitespace-only with `count` spaces.
   */
  lemma IndentStringLines(s: string, count: int)
    requires count >= 0
    ensures IndentString(s, count).Ok?
    ensures var ls, rs := Lines(s), Lines(IndentString(s, count).value);
            |rs| == |ls| &&
            forall i :: 0 <= i < |ls| ==>
              rs[i] == if WhitespaceOnly(ls[i]) then ls[i] else Spaces(count) + ls[i]
  {
    if count == 0 {
      forall i | 0 <= i < |Lines(s)| ensures Spaces(0) + Lines(s)[i] == Lines(s)[i] { }
    } else {
      IndentByLines(s, Spaces(count));
      IndentEachIndex(Lines(s), Spaces(count));
    }
  }

  /** Removes the prefix indentString added to a line, leaving blank lines alone. */
  function DedentLine(line: string, count: nat): string {
    if WhitespaceOnly(line) || |line| < count then line else line[count..]
  }

  /** The inverse of indentString for a given count. */
  function Dedent(s: string, count: nat): string {
    var ls := Lines(s);
    Join(seq(|ls|, i requires 0 <= i < |ls| => DedentLine(ls[i], count)))
  }

  lemma DedentIndentLine(line: string, count: nat)
    ensures DedentLine(IndentLine(line, Spaces(count)), count) == line
  {
    if !WhitespaceOnly(line) {
      var i :| 0 <= i < |line| && !IsWhitespace(line[i]);
      assert (Spaces(count) + line)[count + i] == line[i];
    }
  }

  /** Removing the added prefix from every changed line restores the input. */
  lemma IndentStringRoundTrip(s: string, count: int)
    requires count >= 0
    ensures IndentString(s, count).Ok?
    ensures Dedent(IndentString(s, count).value, count) == s
  {
    var r := IndentString(s, count).value;
    IndentStringLines(s, count);
    var ls, rs := Lines(s), Lines(r);
    var ds := seq(|rs|, i requires 0 <= i < |rs| => DedentLine(rs[i], count));
    forall i | 0 <= i < |ls| ensures ds[i] == ls[i] {
      DedentIndentLine(ls[i], count);
      assert rs[i] == IndentLine(ls[i], Spaces(count));
    }
    assert ds == ls;
    JoinLines(s);
  }

  // ---------------------------------------------------------------------------
  // omit
  // ---------------------------------------------------------------------------

  /** The object `omit(obj, keys)` builds: `obj` without the listed keys. */
  function OmitKeys<V>(obj: map<string, V>, keys: seq<string>): map<string, V> {
    map k | k in obj && k !in keys :: obj[k]
  }

  /**
   * omit(obj, keys): walks the entries of `obj` and copies into a fresh object
   * every entry whose key is not listed.
   */
  method Omit<V>(obj: map<string, V>, keys: seq<string>) returns (result: map<string, V>)
    ensures forall k :: k in keys ==> k !in result
    ensures forall k :: k in obj && k !in keys ==> k in result && result[k] == obj[k]
    ensures forall k :: k in result ==> k in obj
    ensures result == OmitKeys(obj, keys)
  {
    result := map[];
    var entries := obj.Keys;
    while entries != {}
      invariant entries <= obj.Keys
      invariant forall k :: k in result <==> k in obj && k !in entries && k !in keys
      invariant forall k :: k in result ==> result[k] == obj[k]
      decreases entries
    {
      var key :| key in entries;
      entries := entries - {key};
      if key in keys {
        continue;
      }
      result := result[key := obj[key]];
    }
  }

  lemma OmitNothing<V>(obj: map<string, V>)
    ensures OmitKeys(obj, []) == obj
  {
  }

  lemma OmitTwice<V>(obj: map<string, V>, a: seq<string>, b: seq<string>)
    ensures OmitKeys(OmitKeys(obj, a), b) == OmitKeys(obj, a + b)
  {
  }
}
