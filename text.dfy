/**
 * The JavaScript string built-ins the tool handler of build/index.js relies on,
 * written out as functions over `string` (a sequence of characters):
 * `split('\n')` and its inverse `join('\n')`, `toLowerCase()` (on ASCII letters),
 * `includes`, `trim` and `endsWith`.
 */
module JsText {

  // ---------------------------------------------------------------------------
  // split('\n') and join('\n')
  // ---------------------------------------------------------------------------

  /** `s.split('\n')`: the pieces between newline characters. JavaScript always
      returns at least one piece (the empty string splits into `[""]`), and no
      piece contains a newline. */
  function Split(s: string): (r: seq<string>)
    ensures |r| >= 1
    ensures forall k :: 0 <= k < |r| ==> '\n' !in r[k]
  {
    if s == [] then [[]]
    else
      var rest := Split(s[1..]);
      if s[0] == '\n' then [[]] + rest
      else [[s[0]] + rest[0]] + rest[1..]
  }

  /** `pieces.join('\n')`. */
  function Join(pieces: seq<string>): (r: string)
  {
    if |pieces| == 0 then []
    else if |pieces| == 1 then pieces[0]
    else pieces[0] + "\n" + Join(pieces[1..])
  }

  /** Splitting and joining again gives back the text unchanged: the pieces are
      exactly the lines of the text. */
  lemma {:induction false} JoinSplit(s: string)
    ensures Join(Split(s)) == s
  {
    if s != [] {
      var rest := Split(s[1..]);
      JoinSplit(s[1..]);
      if s[0] == '\n' {
        assert Split(s) == [[]] + rest;
        assert Join(Split(s)) == [] + "\n" + Join(rest);
      } else if |rest| == 1 {
        assert Split(s) == [[s[0]] + rest[0]];
      } else {
        assert Split(s) == [[s[0]] + rest[0]] + rest[1..];
        assert rest == [rest[0]] + rest[1..];
        assert Join(rest) == rest[0] + "\n" + Join(rest[1..]);
        assert Join(Split(s)) == ([s[0]] + rest[0]) + "\n" + Join(rest[1..]);
      }
      assert s == [s[0]] + s[1..];
    }
  }

  /** The number of pieces is one more than the number of newlines in the text,
      so the empty text has one line and no text has zero. */
  lemma {:induction false} SplitCount(s: string)
    ensures |Split(s)| == multiset(s)['\n'] + 1
  {
    if s != [] {
      SplitCount(s[1..]);
      assert s == [s[0]] + s[1..];
      assert multiset(s) == multiset([s[0]]) + multiset(s[1..]);
    }
  }

  /** A text without newline is a single piece. */
  lemma {:induction false} SplitSingleLine(a: string)
    requires '\n' !in a
    ensures Split(a) == [a]
  {
    if a != [] {
      assert a[1..] == a[|a| - |a[1..]|..];
      assert '\n' !in a[1..] by {
        forall k | 0 <= k < |a[1..]| ensures a[1..][k] != '\n' { assert a[1..][k] == a[k + 1]; }
      }
      SplitSingleLine(a[1..]);
      assert a == [a[0]] + a[1..];
    }
  }

  /** A newline after a newline-free prefix ends the first piece there. */
  lemma {:induction false} SplitAfterLine(a: string, b: string)
    requires '\n' !in a
    ensures Split(a + "\n" + b) == [a] + Split(b)
  {
    var s := a + "\n" + b;
    if a == [] {
      assert s[0] == '\n' && s[1..] == b;
    } else {
      assert s[0] == a[0] && a[0] != '\n';
      assert s[1..] == a[1..] + "\n" + b;
      assert '\n' !in a[1..] by {
        forall k | 0 <= k < |a[1..]| ensures a[1..][k] != '\n' { assert a[1..][k] == a[k + 1]; }
      }
      SplitAfterLine(a[1..], b);
      assert a == [a[0]] + a[1..];
    }
  }

  /** Joining newline-free pieces and splitting again gives back the pieces. */
  lemma {:induction false} SplitJoin(pieces: seq<string>)
    requires |pieces| >= 1
    requires forall k :: 0 <= k < |pieces| ==> '\n' !in pieces[k]
    ensures Split(Join(pieces)) == pieces
  {
    if |pieces| == 1 {
      SplitSingleLine(pieces[0]);
    } else {
      SplitJoin(pieces[1..]);
      SplitAfterLine(pieces[0], Join(pieces[1..]));
      assert pieces == [pieces[0]] + pieces[1..];
    }
  }

  // ---------------------------------------------------------------------------
  // toLowerCase()
  // ---------------------------------------------------------------------------

  /** Lower-case mapping of one character, for the ASCII letters A-Z. */
  function LowerChar(c: char): (r: char)
  {
    if 'A' <= c <= 'Z' then (c as int + 32) as char else c
  }

  /** `s.toLowerCase()`, character by character. */
  function Lower(s: string): (r: string)
  {
    seq(|s|, i requires 0 <= i < |s| => LowerChar(s[i]))
  }

  /** Lower-casing keeps the length, replaces each letter A-Z by its
      lower-case partner, keeps every other character, and so leaves no
      upper-case letter behind. */
  lemma LowerSpec(s: string)
    ensures |Lower(s)| == |s|
    ensures forall k :: 0 <= k < |s| && 'A' <= s[k] <= 'Z' ==> Lower(s)[k] as int == s[k] as int + 32
    ensures forall k :: 0 <= k < |s| && !('A' <= s[k] <= 'Z') ==> Lower(s)[k] == s[k]
    ensures forall k :: 0 <= k < |s| ==> !('A' <= Lower(s)[k] <= 'Z')
  {
  }

  // ---------------------------------------------------------------------------
  // includes
  // ---------------------------------------------------------------------------

  /** `needle` occurs in `hay` starting at index `i`. */
  ghost predicate OccursAt(hay: string, needle: string, i: int)
  {
    0 <= i && i + |needle| <= |hay| && hay[i..i + |needle|] == needle
  }

  /** `hay.includes(needle)`: scan the start positions from left to right. */
  function Includes(hay: string, needle: string): (r: bool)
    decreases |hay|
  {
    if needle <= hay then true
    else if |hay| <= |needle| then false
    else Includes(hay[1..], needle)
  }

  /** `includes` holds exactly when the needle occurs somewhere in the text;
      the empty needle occurs in every text. */
  lemma {:induction false} IncludesSpec(hay: string, needle: string)
    ensures Includes(hay, needle) <==> exists i :: OccursAt(hay, needle, i)
    decreases |hay|
  {
    if needle <= hay {
      assert OccursAt(hay, needle, 0);
    } else if |hay| <= |needle| {
    } else {
      IncludesSpec(hay[1..], needle);
      if i :| OccursAt(hay, needle, i) {
        assert i != 0;
        assert hay[1..][i - 1..i - 1 + |needle|] == hay[i..i + |needle|];
        assert OccursAt(hay[1..], needle, i - 1);
      }
      if i :| OccursAt(hay[1..], needle, i) {
        assert hay[1..][i..i + |needle|] == hay[i + 1..i + 1 + |needle|];
        assert OccursAt(hay, needle, i + 1);
      }
    }
  }

  /** Lower-casing both sides keeps every occurrence in place. */
  lemma LowerKeepsOccurrence(hay: string, needle: string, i: int)
    requires OccursAt(hay, needle, i)
    ensures OccursAt(Lower(hay), Lower(needle), i)
  {
    forall k | 0 <= k < |needle|
      ensures Lower(hay)[i..i + |needle|][k] == Lower(needle)[k]
    {
      assert hay[i..i + |needle|][k] == needle[k];
    }
  }

  /** A case-sensitive hit is also a case-insensitive hit. */
  lemma IncludesLower(hay: string, needle: string)
    requires Includes(hay, needle)
    ensures Includes(Lower(hay), Lower(needle))
  {
    IncludesSpec(hay, needle);
    var i :| OccursAt(hay, needle, i);
    LowerKeepsOccurrence(hay, needle, i);
    IncludesSpec(Lower(hay), Lower(needle));
  }

  // ---------------------------------------------------------------------------
  // trim
  // ---------------------------------------------------------------------------

  /** The characters `String.prototype.trim` removes: ECMAScript WhiteSpace and
      LineTerminator code points. */
  predicate IsWhiteSpace(c: char)
  {
    || c == '\t' || c == '\n' || c == '\U{000B}' || c == '\U{000C}' || c == '\r'
    || c == ' ' || c == '\U{00A0}' || c == '\U{1680}'
    || ('\U{2000}' <= c <= '\U{200A}')
    || c == '\U{2028}' || c == '\U{2029}' || c == '\U{202F}' || c == '\U{205F}'
    || c == '\U{3000}' || c == '\U{FEFF}'
  }

  ghost predicate AllWhiteSpace(s: string)
  {
    forall k :: 0 <= k < |s| ==> IsWhiteSpace(s[k])
  }

  /** Drop leading white space. */
  function TrimStart(s: string): (r: string)
  {
    if s != [] && IsWhiteSpace(s[0]) then TrimStart(s[1..]) else s
  }

  /** Drop trailing white space. */
  function TrimEnd(s: string): (r: string)
  {
    if s != [] && IsWhiteSpace(s[|s| - 1]) then TrimEnd(s[..|s| - 1]) else s
  }

  /** `s.trim()`: the text between the leading and the trailing white space. */
  function Trim(s: string): (r: string)
  {
    TrimEnd(TrimStart(s))
  }

  /** What is left after TrimStart is a suffix starting with a non-white
      character, and everything dropped was white. */
  lemma {:induction false} TrimStartSpec(s: string)
    ensures var r := TrimStart(s);
      |r| <= |s| && r == s[|s| - |r|..] && AllWhiteSpace(s[..|s| - |r|])
      && (r == [] || !IsWhiteSpace(r[0]))
  {
    if s != [] && IsWhiteSpace(s[0]) {
      TrimStartSpec(s[1..]);
      var r := TrimStart(s[1..]);
      assert s[1..][..|s[1..]| - |r|] == s[1..|s| - |r|];
    }
  }

  /** What is left after TrimEnd is a prefix ending with a non-white
      character, and everything dropped was white. */
  lemma {:induction false} TrimEndSpec(s: string)
    ensures var r := TrimEnd(s);
      |r| <= |s| && r == s[..|r|] && AllWhiteSpace(s[|r|..])
      && (r == [] || !IsWhiteSpace(r[|r| - 1]))
  {
    if s != [] && IsWhiteSpace(s[|s| - 1]) {
      var front := s[..|s| - 1];
      TrimEndSpec(front);
      var r := TrimEnd(front);
      assert TrimEnd(s) == r;
      assert front[..|r|] == s[..|r|];
      forall k | 0 <= k < |s| - |r| ensures IsWhiteSpace(s[|r|..][k]) {
        if k < |s| - 1 - |r| {
          assert s[|r|..][k] == front[|r|..][k];
        }
      }
    }
  }

  /** `r` is `s` with the white space `s[..lo]` and `s[lo + |r|..]` cut off. */
  ghost predicate Strips(s: string, r: string, lo: int)
  {
    0 <= lo && lo + |r| <= |s| && s[lo..lo + |r|] == r
    && AllWhiteSpace(s[..lo]) && AllWhiteSpace(s[lo + |r|..])
  }

  /** Trim cuts white space, and only white space, off both ends, and leaves
      neither end white. */
  lemma TrimSpec(s: string)
    ensures exists lo :: Strips(s, Trim(s), lo)
    ensures Trim(s) == [] || (!IsWhiteSpace(Trim(s)[0]) && !IsWhiteSpace(Trim(s)[|Trim(s)| - 1]))
  {
    var mid := TrimStart(s);
    var r := TrimEnd(mid);
    TrimStartSpec(s);
    TrimEndSpec(mid);
    var lo := |s| - |mid|;
    assert s[lo..lo + |r|] == mid[..|r|];
    assert s[lo + |r|..] == mid[|r|..];
    assert Strips(s, r, lo);
    assert r == Trim(s);
  }

  /** A text that neither starts nor ends with white space is its own trim. */
  lemma TrimKeepsTrimmed(s: string)
    requires s == [] || (!IsWhiteSpace(s[0]) && !IsWhiteSpace(s[|s| - 1]))
    ensures Trim(s) == s
  {
    assert TrimStart(s) == s;
    assert TrimEnd(s) == s;
  }

  /** Trimming twice is trimming once. */
  lemma TrimIdempotent(s: string)
    ensures Trim(Trim(s)) == Trim(s)
  {
    TrimSpec(s);
    TrimKeepsTrimmed(Trim(s));
  }

  // ---------------------------------------------------------------------------
  // endsWith
  // ---------------------------------------------------------------------------

  /** `s.endsWith(suffix)`. */
  predicate EndsWith(s: string, suffix: string)
  {
    |suffix| <= |s| && s[|s| - |suffix|..] == suffix
  }
}
