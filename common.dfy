/** Helpers shared by the puzzle models: an option type, the integer widths of the
    source, Rust's decimal `parse`/`Display` for integers, and the string splitting
    functions of Rust's `str` (`split`, `split_once`, `split_ascii_whitespace`,
    `lines`, `trim`). */
module Common {

  datatype Option<T> = None | Some(value: T)

  const U8_MAX: nat := 0xFF
  const U16_MAX: nat := 0xFFFF
  const U64_MAX: nat := 0xFFFF_FFFF_FFFF_FFFF
  const I64_MIN: int := -0x8000_0000_0000_0000
  const I64_MAX: int := 0x7FFF_FFFF_FFFF_FFFF

  /** Rust's `u8` and `u16`. */
  type Byte = x: nat | x <= U8_MAX
  type U16 = x: nat | x <= U16_MAX
  /** Rust's `u64`. */
  type U64 = x: nat | x <= U64_MAX

  function Min(a: int, b: int): int { if a <= b then a else b }
  function Max(a: int, b: int): int { if a >= b then a else b }

  /** `a.abs_diff(b)` */
  function AbsDiff(a: int, b: int): nat { if a >= b then a - b else b - a }

  // ---------------------------------------------------------------------------
  // Decimal numbers

  predicate IsDigit(c: char) { '0' <= c <= '9' }

  predicate AllDigits(s: string) { forall i :: 0 <= i < |s| ==> IsDigit(s[i]) }

  /** The value of a string of decimal digits, most significant first. */
  function DigitsValue(s: string): nat
    requires AllDigits(s)
  {
    if s == [] then 0 else 10 * DigitsValue(s[..|s| - 1]) + (s[|s| - 1] as nat - '0' as nat)
  }

  /** `format!("{}", n)` for an unsigned integer: no sign and no leading zero. */
  function DecimalString(n: nat): (s: string)
    ensures |s| >= 1 && AllDigits(s)
    ensures |s| > 1 ==> s[0] != '0'
    ensures DigitsValue(s) == n
  {
    var last := [('0' as int + n % 10) as char];
    if n < 10 then last
    else
      var front := DecimalString(n / 10);
      assert (front + last)[..|front + last| - 1] == front;
      front + last
  }

  /** Rust's `str::parse` for an unsigned integer type whose largest value is `max`:
      an optional `+`, then at least one ASCII digit, and a value no larger than `max`. */
  function ParseUnsigned(s: string, max: nat): (r: Option<nat>)
    ensures r.Some? ==> r.value <= max
  {
    var digits := if |s| > 1 && s[0] == '+' then s[1..] else s;
    if digits == [] || !AllDigits(digits) then None
    else if DigitsValue(digits) <= max then Some(DigitsValue(digits))
    else None
  }

  /** Rust's `str::parse` for a signed integer type with range `min..=max`
      (an optional `+` or `-`, then at least one digit). */
  function ParseSigned(s: string, min: int, max: int): (r: Option<int>)
    requires min <= 0 <= max
    ensures r.Some? ==> min <= r.value <= max
  {
    if |s| > 1 && s[0] == '-' then
      var digits := s[1..];
      if !AllDigits(digits) || -(DigitsValue(digits) as int) < min then None
      else Some(-(DigitsValue(digits) as int))
    else
      match ParseUnsigned(s, max)
      case None => None
      case Some(v) => Some(v)
  }

  /** Rust's `Display` of a signed integer. */
  function SignedString(v: int): string
  {
    if v < 0 then "-" + DecimalString(-v) else DecimalString(v)
  }

  /** Parsing the decimal form of a value in range gives the value back. */
  lemma ParseUnsignedRoundTrip(n: nat, max: nat)
    requires n <= max
    ensures ParseUnsigned(DecimalString(n), max) == Some(n)
  {
  }

  /** A value above the type's maximum does not parse. */
  lemma ParseUnsignedOverflow(n: nat, max: nat)
    requires n > max
    ensures ParseUnsigned(DecimalString(n), max) == None
  {
  }

  lemma ParseSignedRoundTrip(v: int, min: int, max: int)
    requires min <= 0 <= max && min <= v <= max
    ensures ParseSigned(SignedString(v), min, max) == Some(v)
  {
    if v < 0 {
      var s := SignedString(v);
      assert s[1..] == DecimalString(-v);
    } else {
      ParseUnsignedRoundTrip(v, max);
      var s := DecimalString(v);
      assert !(|s| > 1 && s[0] == '-');
    }
  }

  // ---------------------------------------------------------------------------
  // Splitting

  /** `pat` occurs in `t` at position `i`. */
  predicate OccursAt(t: string, pat: string, i: int)
  {
    0 <= i && i + |pat| <= |t| && t[i..i + |pat|] == pat
  }

  predicate Occurs(t: string, pat: string)
  {
    exists i :: 0 <= i <= |t| && OccursAt(t, pat, i)
  }

  /** Rust's `str::split` with a non-empty pattern: the pieces between the
      non-overlapping occurrences of `pat` found from left to right. */
  function Split(s: string, pat: string): (r: seq<string>)
    requires |pat| >= 1
    ensures |r| >= 1
    decreases |s|
  {
    if s == [] then [[]]
    else if pat <= s then [[]] + Split(s[|pat|..], pat)
    else
      var rest := Split(s[1..], pat);
      [[s[0]] + rest[0]] + rest[1..]
  }

  /** The first piece of a split is a prefix of the string. */
  lemma {:induction false} SplitFirstPrefix(s: string, pat: string)
    requires |pat| >= 1
    ensures Split(s, pat)[0] <= s
    decreases |s|
  {
    if s != [] && !(pat <= s) {
      SplitFirstPrefix(s[1..], pat);
      assert s == [s[0]] + s[1..];
    }
  }

  /** No piece of a split holds the pattern. */
  lemma {:induction false} SplitPiecesFree(s: string, pat: string)
    requires |pat| >= 1
    ensures forall i :: 0 <= i < |Split(s, pat)| ==> !Occurs(Split(s, pat)[i], pat)
    decreases |s|
  {
    if s == [] {
      assert !OccursAt([], pat, 0);
    } else if pat <= s {
      SplitPiecesFree(s[|pat|..], pat);
      assert !OccursAt([], pat, 0);
    } else {
      SplitPiecesFree(s[1..], pat);
      SplitFirstPrefix(s[1..], pat);
      var rest := Split(s[1..], pat);
      var first := [s[0]] + rest[0];
      assert !Occurs(first, pat) by {
        if i :| 0 <= i <= |first| && OccursAt(first, pat, i) {
          if i > 0 {
            assert OccursAt(rest[0], pat, i - 1) by {
              assert first[i..i + |pat|] == rest[0][i - 1..i - 1 + |pat|];
            }
          }
        }
      }
    }
  }

  /** `pieces.join(sep)` */
  function Join(pieces: seq<string>, sep: string): string
  {
    if pieces == [] then []
    else if |pieces| == 1 then pieces[0]
    else pieces[0] + sep + Join(pieces[1..], sep)
  }

  /** Joining one more piece on the end adds the separator and the piece. */
  lemma {:induction false} JoinSnoc(pieces: seq<string>, x: string, sep: string)
    requires pieces != []
    ensures Join(pieces + [x], sep) == Join(pieces, sep) + sep + x
  {
    if |pieces| == 1 {
      assert (pieces + [x])[1..] == [x];
    } else {
      assert (pieces + [x])[1..] == pieces[1..] + [x];
      JoinSnoc(pieces[1..], x, sep);
    }
  }

  /** Joining the pieces with the pattern gives the string back. */
  lemma {:induction false} JoinSplit(s: string, pat: string)
    requires |pat| >= 1
    ensures Join(Split(s, pat), pat) == s
    decreases |s|
  {
    if s == [] {
    } else if pat <= s {
      JoinSplit(s[|pat|..], pat);
      JoinSplitAtPattern(s, pat);
    } else {
      JoinSplit(s[1..], pat);
      JoinSplitAtChar(s, pat);
    }
  }

  lemma ConcatAssoc<T>(x: seq<T>, y: seq<T>, z: seq<T>)
    ensures x + (y + z) == (x + y) + z
  {
  }

  lemma JoinSplitAtPattern(s: string, pat: string)
    requires |pat| >= 1 && pat <= s && Join(Split(s[|pat|..], pat), pat) == s[|pat|..]
    ensures Join(Split(s, pat), pat) == s
  {
    var rest := Split(s[|pat|..], pat);
    var r := Split(s, pat);
    assert r == [[]] + rest;
    assert r[0] == [] && r[1..] == rest && |r| >= 2;
    assert Join(r, pat) == r[0] + pat + Join(r[1..], pat);
    assert r[0] + pat == pat;
    assert s == pat + s[|pat|..];
  }

  /** Away from an occurrence, the first character joins the first piece of the rest. */
  lemma SplitAtChar(s: string, pat: string)
    requires |pat| >= 1 && s != [] && !(pat <= s)
    ensures Split(s, pat) == [[s[0]] + Split(s[1..], pat)[0]] + Split(s[1..], pat)[1..]
  {
  }

  lemma JoinSplitAtChar(s: string, pat: string)
    requires |pat| >= 1 && s != [] && !(pat <= s) && Join(Split(s[1..], pat), pat) == s[1..]
    ensures Join(Split(s, pat), pat) == s
  {
    var rest := Split(s[1..], pat);
    var r := Split(s, pat);
    assert r == [[s[0]] + rest[0]] + rest[1..] by { SplitAtChar(s, pat); }
    assert Join(r, pat) == [s[0]] + Join(rest, pat) by { JoinConsFirst(s[0], rest, pat); }
    ConsTail(s);
  }

  /** The first `i + 1` elements are the first `i` and then element `i`. */
  lemma TakeSnoc<T>(s: seq<T>, i: nat)
    requires i < |s|
    ensures s[..i + 1] == s[..i] + [s[i]]
  {
  }

  lemma ConsTail<T>(s: seq<T>)
    requires s != []
    ensures [s[0]] + s[1..] == s
  {
  }

  /** A character put in front of the first piece comes out in front of the join. */
  lemma JoinConsFirst(c: char, pieces: seq<string>, sep: string)
    requires |pieces| >= 1
    ensures Join([[c] + pieces[0]] + pieces[1..], sep) == [c] + Join(pieces, sep)
  {
    var r := [[c] + pieces[0]] + pieces[1..];
    if |pieces| == 1 {
      assert r == [[c] + pieces[0]];
    } else {
      var j := Join(pieces[1..], sep);
      assert r[0] == [c] + pieces[0] && r[1..] == pieces[1..] && |r| >= 2;
      assert Join(r, sep) == r[0] + sep + Join(r[1..], sep);
      assert Join(pieces, sep) == pieces[0] + sep + j;
      ConcatAssoc([c], pieces[0], sep);
      ConcatAssoc([c], pieces[0] + sep, j);
    }
  }




  /** For a one-character separator, splitting a join gives the pieces back. */
  lemma {:induction false} SplitJoin(pieces: seq<string>, sep: char)
    requires |pieces| >= 1
    requires forall i :: 0 <= i < |pieces| ==> sep !in pieces[i]
    ensures Split(Join(pieces, [sep]), [sep]) == pieces
    decreases |pieces|, |pieces[0]|
  {
    var s := Join(pieces, [sep]);
    if |pieces| == 1 {
      SplitNoSep(pieces[0], sep);
    } else if pieces[0] == [] {
      assert s == [sep] + Join(pieces[1..], [sep]);
      assert s[1..] == Join(pieces[1..], [sep]);
      SplitJoin(pieces[1..], sep);
      assert pieces == [[]] + pieces[1..];
    } else {
      var p0 := pieces[0];
      var shorter := [p0[1..]] + pieces[1..];
      assert Join(shorter, [sep]) == s[1..] by {
        assert s == p0 + [sep] + Join(pieces[1..], [sep]);
        assert shorter[1..] == pieces[1..];
      }
      assert sep !in p0[1..];
      SplitJoin(shorter, sep);
      assert s[0] == p0[0] && p0[0] != sep;
      assert !([sep] <= s);
      assert [p0[0]] + p0[1..] == p0;
      assert shorter[1..] == pieces[1..];
    }
  }

  lemma {:induction false} SplitNoSep(t: string, sep: char)
    requires sep !in t
    ensures Split(t, [sep]) == [t]
    decreases |t|
  {
    if t != [] {
      assert t[0] != sep;
      assert sep !in t[1..];
      SplitNoSep(t[1..], sep);
      assert [t[0]] + t[1..] == t;
    }
  }

  /** `s.split_once(pat)`: the parts before and after the first occurrence of `pat`. */
  function SplitOnce(s: string, pat: string): (r: Option<(string, string)>)
    requires |pat| >= 1
    ensures r.Some? ==> s == r.value.0 + pat + r.value.1
    ensures r.None? <==> !Occurs(s, pat)
    decreases |s|
  {
    if |s| < |pat| then
      None
    else if pat <= s then
      assert OccursAt(s, pat, 0);
      PrefixRest(s, pat);
      Some(([], s[|pat|..]))
    else
      OccursTail(s, pat);
      match SplitOnce(s[1..], pat)
      case None => None
      case Some((a, b)) =>
        ConsParts(s, a, pat, b);
        Some(([s[0]] + a, b))
  }

  lemma PrefixRest<T>(s: seq<T>, p: seq<T>)
    requires p <= s
    ensures s == [] + p + s[|p|..]
  {
  }

  lemma ConsParts<T>(s: seq<T>, a: seq<T>, p: seq<T>, b: seq<T>)
    requires s != [] && s[1..] == a + p + b
    ensures s == [s[0]] + a + p + b
  {
    assert s == [s[0]] + s[1..];
  }

  /** The part before the split holds no occurrence of `pat`: the split is at the first one. */
  lemma {:induction false} SplitOnceEarliest(s: string, pat: string)
    requires |pat| >= 1
    ensures var r := SplitOnce(s, pat);
      r.Some? ==> forall i :: 0 <= i < |r.value.0| ==> !OccursAt(s, pat, i)
    decreases |s|
  {
    if |s| >= |pat| && !(pat <= s) {
      SplitOnceEarliest(s[1..], pat);
      var r := SplitOnce(s, pat);
      if r.Some? {
        var a := SplitOnce(s[1..], pat).value.0;
        assert r.value.0 == [s[0]] + a;
        forall i | 0 <= i < |r.value.0|
          ensures !OccursAt(s, pat, i)
        {
          if i > 0 {
            OccursAtTail(s, pat, i);
          }
        }
      }
    }
  }

  lemma OccursAtTail(s: string, pat: string, i: int)
    requires s != [] && i >= 1
    ensures OccursAt(s, pat, i) <==> OccursAt(s[1..], pat, i - 1)
  {
    if i + |pat| <= |s| {
      assert s[1..][i - 1..i - 1 + |pat|] == s[i..i + |pat|];
    }
  }

  /** When `pat` is not a prefix of `s`, it occurs in `s` exactly when it occurs in `s[1..]`. */
  lemma OccursTail(s: string, pat: string)
    requires s != [] && |pat| >= 1 && !(pat <= s)
    ensures Occurs(s, pat) <==> Occurs(s[1..], pat)
  {
    if i :| 0 <= i <= |s| && OccursAt(s, pat, i) {
      assert i != 0;
      OccursAtTail(s, pat, i);
    }
    if i :| 0 <= i <= |s[1..]| && OccursAt(s[1..], pat, i) {
      OccursAtTail(s, pat, i + 1);
    }
  }

  /** `split_once` at a separator that the part before it does not contain. */
  lemma SplitOnceFirst(a: string, b: string, c: char)
    requires c !in a
    ensures SplitOnce(a + [c] + b, [c]) == Some((a, b))
  {
    forall i | 0 <= i < |a| ensures !OccursAt(a + [c] + b, [c], i) {
      assert (a + [c] + b)[i] == a[i];
    }
    SplitOnceAt(a, [c], b);
  }

  /** `split_once` splits at the first occurrence of `pat`. */
  lemma SplitOnceAt(a: string, pat: string, b: string)
    requires |pat| >= 1
    requires forall i :: 0 <= i < |a| ==> !OccursAt(a + pat + b, pat, i)
    ensures SplitOnce(a + pat + b, pat) == Some((a, b))
  {
    var s := a + pat + b;
    assert OccursAt(s, pat, |a|) by { assert s[|a|..|a| + |pat|] == pat; }
    SplitOnceEarliest(s, pat);
    var r := SplitOnce(s, pat);
    var x, y := r.value.0, r.value.1;
    assert OccursAt(s, pat, |x|) by { assert s[|x|..|x| + |pat|] == pat; }
    assert |x| == |a|;
    assert x == s[..|a|] && y == s[|a| + |pat|..];
  }

  // ---------------------------------------------------------------------------
  // Whitespace

  /** `char::is_ascii_whitespace` */
  predicate IsAsciiSpace(c: char)
  {
    c == ' ' || c == '\t' || c == '\n' || c == '\r' || c == '\U{C}'
  }

  predicate NoSpace(t: string) { forall i :: 0 <= i < |t| ==> !IsAsciiSpace(t[i]) }

  /** `s.split_ascii_whitespace()`: the maximal runs of non-whitespace characters. */
  function Tokens(s: string): (r: seq<string>)
    ensures s != [] && !IsAsciiSpace(s[0]) ==> |r| >= 1 && r[0] <= s
    decreases |s|
  {
    if s == [] then []
    else if IsAsciiSpace(s[0]) then Tokens(s[1..])
    else
      var rest := Tokens(s[1..]);
      if |s| > 1 && !IsAsciiSpace(s[1]) then [[s[0]] + rest[0]] + rest[1..]
      else [[s[0]]] + rest
  }

  /** Every token is non-empty and holds no whitespace. */
  lemma {:induction false} TokensPlain(s: string)
    ensures forall i :: 0 <= i < |Tokens(s)| ==> Tokens(s)[i] != [] && NoSpace(Tokens(s)[i])
    decreases |s|
  {
    if s != [] {
      TokensPlain(s[1..]);
      if !IsAsciiSpace(s[0]) && |s| > 1 && !IsAsciiSpace(s[1]) {
        var rest := Tokens(s[1..]);
        var first := [s[0]] + rest[0];
        assert forall k :: 0 < k < |first| ==> first[k] == rest[0][k - 1];
      }
    }
  }

  /** Tokens joined by single spaces are split back into the same tokens. */
  lemma {:induction false} TokensOfJoin(ts: seq<string>)
    requires forall i :: 0 <= i < |ts| ==> ts[i] != [] && NoSpace(ts[i])
    ensures Tokens(Join(ts, " ")) == ts
    decreases |ts|
  {
    if |ts| == 1 {
      TokensOfWord(ts[0], []);
      assert ts[0] + [] == ts[0];
    } else if |ts| > 1 {
      TokensOfJoin(ts[1..]);
      var tail := " " + Join(ts[1..], " ");
      assert Tokens(tail) == ts[1..] by {
        assert tail[1..] == Join(ts[1..], " ");
      }
      TokensOfWord(ts[0], tail);
      assert Join(ts, " ") == ts[0] + tail;
      assert [ts[0]] + ts[1..] == ts;
    }
  }

  /** A word followed by nothing or by whitespace is a token on its own. */
  lemma {:induction false} TokensOfWord(w: string, tail: string)
    requires w != [] && NoSpace(w)
    requires tail == [] || IsAsciiSpace(tail[0])
    ensures Tokens(w + tail) == [w] + Tokens(tail)
    decreases |w|
  {
    var s := w + tail;
    assert s[1..] == w[1..] + tail;
    if |w| == 1 {
      assert s[1..] == tail && [s[0]] == w;
    } else {
      TokensOfWord(w[1..], tail);
      assert [s[0]] + w[1..] == w;
    }
  }

  /**
   * `char::is_whitespace`: the characters with Unicode's White_Space
   * property, which `str::trim` strips. Unlike ASCII whitespace it takes in
   * the vertical tab.
   */
  predicate IsWhiteSpace(c: char)
  {
    '\t' <= c <= '\r' || c == ' ' || c == '\U{85}' || c == '\U{A0}' || c == '\U{1680}' ||
    '\U{2000}' <= c <= '\U{200A}' || c == '\U{2028}' || c == '\U{2029}' || c == '\U{202F}' ||
    c == '\U{205F}' || c == '\U{3000}'
  }

  /** `s.trim()`: the string without its leading and trailing whitespace. */
  function Trim(s: string): (r: string)
    ensures r == [] || (!IsWhiteSpace(r[0]) && !IsWhiteSpace(r[|r| - 1]))
    decreases |s|
  {
    if s == [] then []
    else if IsWhiteSpace(s[0]) then Trim(s[1..])
    else if IsWhiteSpace(s[|s| - 1]) then Trim(s[..|s| - 1])
    else s
  }

  predicate AllSpace(t: string) { forall i :: 0 <= i < |t| ==> IsWhiteSpace(t[i]) }

  /** Trimming a word padded with whitespace on both sides gives the word. */
  lemma {:induction false} TrimPadded(a: string, t: string, b: string)
    requires AllSpace(a) && AllSpace(b)
    requires t != [] && !IsWhiteSpace(t[0]) && !IsWhiteSpace(t[|t| - 1])
    ensures Trim(a + t + b) == t
    decreases |a| + |b|
  {
    var s := a + t + b;
    if a != [] {
      assert s[0] == a[0];
      assert s[1..] == a[1..] + t + b;
      TrimPadded(a[1..], t, b);
    } else if b != [] {
      assert s[0] == t[0] && s[|s| - 1] == b[|b| - 1];
      assert s[..|s| - 1] == a + t + b[..|b| - 1];
      TrimPadded(a, t, b[..|b| - 1]);
    } else {
      assert s == t;
    }
  }

  // ---------------------------------------------------------------------------
  // Lines

  /** `line.strip_suffix("\r").unwrap_or(line)` */
  function StripCr(line: string): string
  {
    if line != [] && line[|line| - 1] == '\r' then line[..|line| - 1] else line
  }

  /** Rust's `str::lines`: the pieces between `\n`s, with a `\r` removed before each
      `\n` and no final empty piece after a trailing `\n`. */
  function StrLines(s: string): seq<string>
  {
    var pieces := Split(s, "\n");
    var n := |pieces|;
    var kept := if pieces[n - 1] == [] then n - 1 else n;
    seq(kept, i requires 0 <= i < kept =>
      if i < n - 1 then StripCr(pieces[i]) else pieces[i])
  }

  /** A line as `lines` yields it back: not empty, no `\n`, no final `\r`. */
  predicate PlainLine(t: string)
  {
    t != [] && '\n' !in t && t[|t| - 1] != '\r'
  }

  /** `lines` reads back plain lines joined by `\n`, with or without a final `\n`. */
  lemma StrLinesOfJoin(lines: seq<string>)
    requires forall i :: 0 <= i < |lines| ==> PlainLine(lines[i])
    ensures StrLines(Join(lines, "\n")) == lines
    ensures StrLines(Join(lines + [[]], "\n")) == lines
  {
    StrLinesOfPieces(lines, false);
    StrLinesOfPieces(lines, true);
  }

  lemma StrLinesOfPieces(lines: seq<string>, final: bool)
    requires forall i :: 0 <= i < |lines| ==> PlainLine(lines[i])
    ensures StrLines(Join(if final then lines + [[]] else lines, "\n")) == lines
  {
    var pieces := if final then lines + [[]] else lines;
    if pieces == [] {
      assert Split([], "\n") == [[]];
    } else {
      forall i | 0 <= i < |pieces| ensures '\n' !in pieces[i] {
        if i < |lines| {
          assert pieces[i] == lines[i];
        }
      }
      SplitJoin(pieces, '\n');
      StrLinesOfSplit(Join(pieces, "\n"), pieces, lines);
    }
  }

  /** `lines` of a string that splits into the plain lines, then possibly one empty piece. */
  lemma StrLinesOfSplit(s: string, pieces: seq<string>, lines: seq<string>)
    requires forall i :: 0 <= i < |lines| ==> PlainLine(lines[i])
    requires pieces == lines || pieces == lines + [[]]
    requires Split(s, "\n") == pieces && pieces != []
    ensures StrLines(s) == lines
  {
    var n := |pieces|;
    var kept := if pieces[n - 1] == [] then n - 1 else n;
    assert kept == |lines|;
    var r := StrLines(s);
    forall i | 0 <= i < |lines| ensures r[i] == lines[i] {
      assert r[i] == if i < n - 1 then StripCr(pieces[i]) else pieces[i];
      assert pieces[i] == lines[i];
      StripCrPlain(lines[i]);
    }
  }

  lemma StripCrPlain(t: string)
    requires PlainLine(t)
    ensures StripCr(t) == t
  {
  }

  /** In plain lines joined by `\n`, every `\n` is followed by a character other than `\n`. */
  lemma {:induction false} JoinHasNoBlankLine(lines: seq<string>)
    requires forall i :: 0 <= i < |lines| ==> PlainLine(lines[i])
    ensures var j := Join(lines, "\n");
      (j != [] ==> j[|j| - 1] != '\n') &&
      forall i :: 0 <= i < |j| && j[i] == '\n' ==> i + 1 < |j| && j[i + 1] != '\n'
  {
    if |lines| >= 2 {
      JoinHasNoBlankLine(lines[1..]);
      var l0, rest := lines[0], Join(lines[1..], "\n");
      assert Join(lines, "\n") == l0 + "\n" + rest;
      assert rest[0] == lines[1][0];
    }
  }

  /** Plain lines joined by `\n` and followed by a blank line split there first. */
  lemma SplitAtBlankLine(lines: seq<string>, tail: string)
    requires forall i :: 0 <= i < |lines| ==> PlainLine(lines[i])
    ensures SplitOnce(Join(lines, "\n") + "\n\n" + tail, "\n\n") == Some((Join(lines, "\n"), tail))
  {
    var j := Join(lines, "\n");
    var s := j + "\n\n" + tail;
    JoinHasNoBlankLine(lines);
    forall i | 0 <= i < |j| ensures !OccursAt(s, "\n\n", i) {
      assert s[i] == j[i];
      assert i + 1 < |j| ==> s[i + 1] == j[i + 1];
    }
    SplitOnceAt(j, "\n\n", tail);
  }

  /** A piece that does not contain the one-character pattern `[c]` has no `c`. */
  lemma NoOccursNoChar(t: string, c: char)
    requires !Occurs(t, [c])
    ensures c !in t
  {
    if c in t {
      var i :| 0 <= i < |t| && t[i] == c;
      assert OccursAt(t, [c], i);
    }
  }

  // ---------------------------------------------------------------------------
  // Collecting

  /** All the values, or None when any is missing: how a `map` whose closure may panic is consumed. */
  function Collect<T>(xs: seq<Option<T>>): (r: Option<seq<T>>)
    ensures r.Some? <==> forall i :: 0 <= i < |xs| ==> xs[i].Some?
    ensures r.Some? ==> |r.value| == |xs| && forall i :: 0 <= i < |xs| ==> r.value[i] == xs[i].value
  {
    if xs == [] then Some([])
    else
      match (Collect(xs[..|xs| - 1]), xs[|xs| - 1])
      case (Some(front), Some(x)) => Some(front + [x])
      case _ => None
  }

  // ---------------------------------------------------------------------------
  // Sums

  function Sum(s: seq<int>): int
  {
    if s == [] then 0 else Sum(s[..|s| - 1]) + s[|s| - 1]
  }

  lemma SumSnoc(s: seq<int>, x: int)
    ensures Sum(s + [x]) == Sum(s) + x
  {
    assert (s + [x])[..|s|] == s;
  }

  function Product(s: seq<int>): int
  {
    if s == [] then 1 else Product(s[..|s| - 1]) * s[|s| - 1]
  }

  /** The integers `lo..=hi` as a set, with as many elements as the range has. */
  function Interval(lo: int, hi: int): (r: set<int>)
    ensures forall x :: x in r <==> lo <= x <= hi
    ensures |r| == if lo <= hi then hi - lo + 1 else 0
    decreases hi - lo
  {
    if lo > hi then {} else Interval(lo, hi - 1) + {hi}
  }

  /** The integers `lo..=hi` in increasing order (Rust's `lo..=hi`). */
  function Range(lo: int, hi: int): (r: seq<int>)
    ensures |r| == if lo <= hi then hi - lo + 1 else 0
    ensures forall i :: 0 <= i < |r| ==> r[i] == lo + i
    ensures forall x :: x in r <==> lo <= x <= hi
    decreases hi - lo
  {
    if lo > hi then [] else Range(lo, hi - 1) + [hi]
  }

  /** Euclidean division of `q * d + r` by `d` gives back `q` and `r`. */
  lemma DivModOfBlock(q: int, r: int, d: int)
    requires d > 0 && 0 <= r < d
    ensures (q * d + r) / d == q && (q * d + r) % d == r
  {
    var n := q * d + r;
    var k := n / d;
    assert n == d * k + n % d;
    assert d * (k - q) == r - n % d;
    MulSign(d, k - q);
  }

  /** A positive multiplier keeps the sign and does not shrink the magnitude. */
  lemma MulSign(d: int, m: int)
    requires d >= 0
    ensures m >= 1 ==> d * m >= d
    ensures m <= -1 ==> d * m <= -d
  {
  }

  /** `j < m * d` means `j / d < m`. */
  lemma DivBelow(j: nat, d: nat, m: nat)
    requires d >= 1 && j < m * d
    ensures j / d < m
  {
    var a := j / d;
    assert j == d * a + j % d;
    MulSign(d, a - m + 1);
  }

  lemma Distrib(a: int, b: int, c: int)
    ensures (a + b) * c == a * c + b * c
  {
  }

  /**
   * Position `j` of block `n` in a sequence of blocks of `ys` rows of `wx`
   * columns lies in row-block `n`, at column `j % wx`.
   */
  lemma BlockCoords(n: nat, ys: nat, wx: nat, j: nat)
    requires ys >= 1 && wx >= 1 && j < ys * wx
    ensures ((n * ys) * wx + j) / wx / ys == n
    ensures ((n * ys) * wx + j) % wx == j % wx
  {
    var a := j / wx;
    var c := j % wx;
    DivBelow(j, wx, ys);
    assert j == wx * a + c;
    Distrib(n * ys, a, wx);
    DivModOfBlock(n * ys + a, c, wx);
    DivModOfBlock(n, a, ys);
  }

  /** `n` blocks of `ys` rows of `wx` cells, and one block more, make `n + 1` blocks. */
  lemma BlockAppend(n: nat, ys: nat, wx: nat)
    ensures (n * ys) * wx + ys * wx == ((n + 1) * ys) * wx
  {
    Distrib(n, 1, ys);
    Distrib(n * ys, ys, wx);
  }

  lemma MulNonneg(a: nat, b: nat)
    ensures a * b >= 0
  {
  }

  lemma MulLe(a: int, b: int, c: nat)
    requires a <= b
    ensures a * c <= b * c
  {
    Distrib(a, b - a, c);
  }

  lemma DivNonneg(a: int, d: int)
    requires a >= 0 && d > 0
    ensures a / d >= 0
  {
    assert a == d * (a / d) + a % d;
    MulSign(d, a / d);
  }
}
