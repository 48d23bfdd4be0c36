/** The JavaScript string operations the source relies on: `trim`,
    `toLowerCase` (ASCII letters only), `includes`, `split(" ")`,
    `split(/\s+/)`, `join`, decimal formatting of counts and UTF-16 `length`. */
module Text {
  import opened Wrappers

  /** ECMAScript WhiteSpace and LineTerminator code points: what `trim()`
      removes and what the regular-expression class `\s` matches. */
  predicate IsWhitespace(c: char) {
    || c == '\t' || c == '\n' || c == '\U{000B}' || c == '\U{000C}' || c == '\r' || c == ' '
    || c == '\U{00A0}' || c == '\U{1680}' || ('\U{2000}' <= c <= '\U{200A}')
    || c == '\U{2028}' || c == '\U{2029}' || c == '\U{202F}' || c == '\U{205F}'
    || c == '\U{3000}' || c == '\U{FEFF}'
  }

  /** The text is empty or whitespace only (`!s.trim()` in the source). */
  predicate IsBlank(s: string) {
    forall i :: 0 <= i < |s| ==> IsWhitespace(s[i])
  }

  function TrimStart(s: string): (r: string)
    ensures |r| <= |s| && r == s[|s| - |r|..]
    ensures forall i :: 0 <= i < |s| - |r| ==> IsWhitespace(s[i])
    ensures |r| > 0 ==> !IsWhitespace(r[0])
    decreases |s|
  {
    if |s| > 0 && IsWhitespace(s[0]) then TrimStart(s[1..]) else s
  }

  function TrimEnd(s: string): (r: string)
    ensures |r| <= |s| && r == s[..|r|]
    ensures forall i :: |r| <= i < |s| ==> IsWhitespace(s[i])
    ensures |r| > 0 ==> !IsWhitespace(r[|r| - 1])
    decreases |s|
  {
    if |s| > 0 && IsWhitespace(s[|s| - 1]) then TrimEnd(s[..|s| - 1]) else s
  }

  /** `s.trim()`: `s` without leading and trailing whitespace. */
  function Trim(s: string): (r: string)
    ensures |r| > 0 ==> !IsWhitespace(r[0]) && !IsWhitespace(r[|r| - 1])
  {
    TrimEnd(TrimStart(s))
  }

  /** What `Trim` removes is whitespace on either side of its result. */
  lemma TrimParts(s: string) returns (before: string, after: string)
    ensures s == before + Trim(s) + after
    ensures IsBlank(before) && IsBlank(after)
  {
    var t := TrimStart(s);
    before := TrimStartPart(s);
    after := TrimEndPart(t);
  }

  lemma TrimStartPart(s: string) returns (before: string)
    ensures s == before + TrimStart(s) && IsBlank(before)
  {
    var t := TrimStart(s);
    var k := |s| - |t|;
    before := s[..k];
    assert t == s[k..];
    assert s == s[..k] + s[k..];
    forall i | 0 <= i < k ensures IsWhitespace(before[i]) {
      assert before[i] == s[i];
    }
  }

  lemma TrimEndPart(t: string) returns (after: string)
    ensures t == TrimEnd(t) + after && IsBlank(after)
  {
    var r := TrimEnd(t);
    after := t[|r|..];
    assert t == r + after;
    forall i | 0 <= i < |after| ensures IsWhitespace(after[i]) {
      assert after[i] == t[|r| + i];
    }
  }

  /** Trimming leaves nothing exactly when the text is blank. */
  lemma TrimEmptyIffBlank(s: string)
    ensures Trim(s) == "" <==> IsBlank(s)
  {
    var before, after := TrimParts(s);
    if Trim(s) != "" {
      assert s[|before|] == Trim(s)[0];
    }
  }

  function LowerChar(c: char): char {
    if 'A' <= c <= 'Z' then (c as int + 32) as char else c
  }

  /** `s.toLowerCase()` restricted to the ASCII letters. */
  function Lower(s: string): (r: string)
    ensures |r| == |s|
    ensures forall i :: 0 <= i < |s| ==> r[i] == LowerChar(s[i])
  {
    seq(|s|, i requires 0 <= i < |s| => LowerChar(s[i]))
  }

  /** Lower-casing works character by character, so it distributes over
      concatenation. */
  lemma LowerConcat(a: string, b: string)
    ensures Lower(a + b) == Lower(a) + Lower(b)
  {
    assert forall i :: 0 <= i < |a + b| ==> Lower(a + b)[i] == (Lower(a) + Lower(b))[i];
  }

  predicate StartsWith(s: string, p: string) {
    |p| <= |s| && s[..|p|] == p
  }

  /** `s.includes(sub)`. */
  predicate Contains(s: string, sub: string)
    decreases |s|
  {
    StartsWith(s, sub) || (|s| > 0 && Contains(s[1..], sub))
  }

  /** The empty string occurs in every string. */
  lemma ContainsEmpty(s: string)
    ensures Contains(s, "")
  {
  }

  /** Every character of a contained string occurs in the container. */
  lemma ContainsChars(s: string, sub: string, k: nat)
    requires k < |sub| && Contains(s, sub)
    ensures sub[k] in s
  {
    ContainsIffOccurs(s, sub);
    var i :| OccursAt(s, sub, i);
    assert s[i + k] == s[i..i + |sub|][k];
  }

  /** `sub` occurs in `s` starting at index `i`. */
  predicate OccursAt(s: string, sub: string, i: int) {
    0 <= i <= |s| - |sub| && s[i..i + |sub|] == sub
  }

  /** `Contains` holds exactly when `sub` occurs at some position. */
  lemma {:induction false} ContainsIffOccurs(s: string, sub: string)
    ensures Contains(s, sub) <==> exists i :: OccursAt(s, sub, i)
    decreases |s|
  {
    if StartsWith(s, sub) {
      assert OccursAt(s, sub, 0);
    }
    if |s| > 0 {
      ContainsIffOccurs(s[1..], sub);
      if exists i :: OccursAt(s, sub, i) {
        var i :| OccursAt(s, sub, i);
        if i > 0 {
          assert OccursAt(s[1..], sub, i - 1);
        }
      }
      if Contains(s[1..], sub) {
        var i :| OccursAt(s[1..], sub, i);
        assert OccursAt(s, sub, i + 1);
      }
    } else {
      if exists i :: OccursAt(s, sub, i) {
        var i :| OccursAt(s, sub, i);
        assert i == 0;
      }
    }
  }

  /** Position of the first `c` in `s`, like `s.indexOf(c)`. */
  function IndexOf(s: string, c: char): (r: Option<nat>)
    ensures r.None? ==> c !in s
    ensures r.Some? ==> r.value < |s| && s[r.value] == c && c !in s[..r.value]
    decreases |s|
  {
    if |s| == 0 then None
    else if s[0] == c then Some(0)
    else match IndexOf(s[1..], c)
      case None => None
      case Some(i) =>
        assert s[..i + 1] == [s[0]] + s[1..][..i];
        Some(i + 1)
  }

  /** `xs.join(sep)`. */
  function Join(xs: seq<string>, sep: string): string
    decreases |xs|
  {
    if |xs| == 0 then ""
    else if |xs| == 1 then xs[0]
    else xs[0] + sep + Join(xs[1..], sep)
  }

  /** `s.split(sep)` for a one-character separator: the pieces between
      separators, empty pieces included. */
  function SplitOn(s: string, sep: char): (r: seq<string>)
    ensures |r| >= 1
    ensures forall k :: 0 <= k < |r| ==> sep !in r[k]
    ensures Join(r, [sep]) == s
    decreases |s|
  {
    match IndexOf(s, sep)
    case None => [s]
    case Some(i) =>
      var rest := SplitOn(s[i + 1..], sep);
      assert s == s[..i] + [sep] + s[i + 1..];
      [s[..i]] + rest
  }

  /** Splitting undoes joining when no piece contains the separator. */
  lemma {:induction false} SplitJoin(xs: seq<string>, sep: char)
    requires |xs| >= 1
    requires forall k :: 0 <= k < |xs| ==> sep !in xs[k]
    ensures SplitOn(Join(xs, [sep]), sep) == xs
    decreases |xs|
  {
    if |xs| > 1 {
      var s := Join(xs, [sep]);
      var tail := Join(xs[1..], [sep]);
      assert s == xs[0] + [sep] + tail;
      IndexOfAfter(xs[0], tail, sep);
      assert s[..|xs[0]|] == xs[0];
      assert s[|xs[0]| + 1..] == tail;
      SplitJoin(xs[1..], sep);
    } else {
      assert Join(xs, [sep]) == xs[0];
    }
  }

  lemma IndexOfAfter(a: string, b: string, sep: char)
    requires sep !in a
    ensures IndexOf(a + [sep] + b, sep) == Some(|a|)
  {
    var s := a + [sep] + b;
    var r := IndexOf(s, sep);
    assert s[|a|] == sep;
    assert s[..|a|] == a;
    assert forall k :: 0 <= k < |a| ==> s[k] != sep;
  }

  /** `s.split(/\s+/)`: the pieces between maximal runs of whitespace; a
      leading or trailing run yields an empty first or last piece. */
  function SplitWs(s: string): (r: seq<string>)
    ensures |r| >= 1
    ensures forall k, i :: 0 <= k < |r| && 0 <= i < |r[k]| ==> !IsWhitespace(r[k][i])
    decreases |s|
  {
    if |s| == 0 then [""]
    else
      var rest := SplitWs(s[1..]);
      if !IsWhitespace(s[0]) then
        var first := [s[0]] + rest[0];
        assert forall i :: 1 <= i < |first| ==> first[i] == rest[0][i - 1];
        [first] + rest[1..]
      else if |s| > 1 && IsWhitespace(s[1]) then rest
      else [""] + rest
  }

  /** Text without whitespace is a single piece. */
  lemma {:induction false} SplitWsNoSpace(s: string)
    requires forall i :: 0 <= i < |s| ==> !IsWhitespace(s[i])
    ensures SplitWs(s) == [s]
    decreases |s|
  {
    if |s| > 0 {
      SplitWsNoSpace(s[1..]);
      assert [s[0]] + s[1..] == s;
    }
  }

  /** Leading whitespace yields an empty first piece. */
  lemma SplitWsLeadingSpace(s: string)
    requires |s| > 0 && IsWhitespace(s[0])
    ensures SplitWs(s)[0] == ""
  {
    if |s| > 1 && IsWhitespace(s[1]) {
      SplitWsLeadingSpace(s[1..]);
    }
  }

  /** Trailing whitespace yields an empty last piece. */
  lemma {:induction false} SplitWsTrailingSpace(s: string)
    requires |s| > 0 && IsWhitespace(s[|s| - 1])
    ensures |SplitWs(s)| >= 2 && SplitWs(s)[|SplitWs(s)| - 1] == ""
    decreases |s|
  {
    if |s| > 1 {
      assert s[1..][|s| - 2] == s[|s| - 1];
      SplitWsTrailingSpace(s[1..]);
    }
  }

  /** Text that starts with a non-whitespace character has a non-empty
      first piece. */
  lemma SplitWsHead(s: string)
    requires |s| > 0 && !IsWhitespace(s[0])
    ensures |SplitWs(s)[0]| > 0
  {
  }

  /** Only the first and the last piece can be empty: an empty piece inside
      would need two whitespace runs with nothing between them. */
  lemma {:induction false} SplitWsInterior(s: string)
    ensures forall k :: 0 < k < |SplitWs(s)| - 1 ==> |SplitWs(s)[k]| > 0
    decreases |s|
  {
    if |s| > 0 {
      var rest := SplitWs(s[1..]);
      var r := SplitWs(s);
      SplitWsInterior(s[1..]);
      if !IsWhitespace(s[0]) {
        assert forall k :: 0 < k < |r| ==> r[k] == rest[k];
      } else if |s| > 1 && IsWhitespace(s[1]) {
        assert r == rest;
      } else {
        if |s| > 1 {
          SplitWsHead(s[1..]);
        }
        assert forall k :: 0 < k < |r| ==> r[k] == rest[k - 1];
      }
    }
  }

  /** A character put in front of the first piece stands in front of the
      joined text. */
  lemma JoinConsHead(c: char, xs: seq<string>, sep: string)
    requires |xs| > 0
    ensures Join([[c] + xs[0]] + xs[1..], sep) == [c] + Join(xs, sep)
  {
    var ys := [[c] + xs[0]] + xs[1..];
    assert ys[1..] == xs[1..];
  }

  /** An empty first piece leaves only the separator in front. */
  lemma JoinEmptyHead(xs: seq<string>, sep: string)
    requires |xs| > 0
    ensures Join([""] + xs, sep) == sep + Join(xs, sep)
  {
    assert ([""] + xs)[1..] == xs;
  }

  /** An empty last piece leaves only the separator behind. */
  lemma {:induction false} JoinEmptyLast(xs: seq<string>, sep: string)
    requires |xs| > 0
    ensures Join(xs + [""], sep) == Join(xs, sep) + sep
    decreases |xs|
  {
    assert (xs + [""])[0] == xs[0];
    if |xs| > 1 {
      assert (xs + [""])[1..] == xs[1..] + [""];
      JoinEmptyLast(xs[1..], sep);
    } else {
      assert (xs + [""])[1..] == [""];
    }
  }

  /** Words without whitespace at their ends, joined by spaces, give text
      without whitespace at its ends. */
  lemma {:induction false} JoinWordsEnds(ws: seq<string>)
    requires |ws| > 0
    requires forall k :: 0 <= k < |ws| ==> |ws[k]| > 0 && !IsWhitespace(ws[k][0]) && !IsWhitespace(ws[k][|ws[k]| - 1])
    ensures var j := Join(ws, " "); |j| > 0 && !IsWhitespace(j[0]) && !IsWhitespace(j[|j| - 1])
    decreases |ws|
  {
    if |ws| > 1 {
      JoinWordsEnds(ws[1..]);
      var tail := Join(ws[1..], " ");
      var j := ws[0] + " " + tail;
      assert Join(ws, " ") == j;
      assert j[0] == ws[0][0];
      assert j[|j| - 1] == tail[|tail| - 1];
    }
  }

  /** Trimming text padded with whitespace on both sides gives back the
      text, when the text itself has no whitespace at either end. */
  lemma TrimPadded(b1: string, t: string, b2: string)
    requires IsBlank(b1) && IsBlank(b2)
    requires |t| > 0 ==> !IsWhitespace(t[0]) && !IsWhitespace(t[|t| - 1])
    ensures Trim(b1 + t + b2) == t
  {
    var s := b1 + t + b2;
    if |t| == 0 {
      forall i | 0 <= i < |s| ensures IsWhitespace(s[i]) {
        if i < |b1| {
          assert s[i] == b1[i];
        } else {
          assert s[i] == b2[i - |b1|];
        }
      }
      TrimEmptyIffBlank(s);
    } else {
      var u := TrimStart(s);
      var k := |s| - |u|;
      assert s[|b1|] == t[0];
      assert k == |b1|;
      assert u == t + b2;
      var v := TrimEnd(u);
      assert u[|t| - 1] == t[|t| - 1];
      assert |v| == |t|;
      assert v == t;
    }
  }

  /** A trailing separator yields an empty last piece. */
  lemma {:induction false} SplitOnTrailing(s: string, sep: char)
    requires |s| > 0 && s[|s| - 1] == sep
    ensures EndsEmpty(SplitOn(s, sep))
    decreases |s|
  {
    assert sep in s;
    var i := IndexOf(s, sep).value;
    var tail := s[i + 1..];
    SplitOnStep(s, sep, i);
    if i + 1 < |s| {
      assert tail[|tail| - 1] == sep;
      SplitOnTrailing(tail, sep);
    } else {
      assert tail == "";
      assert SplitOn(tail, sep) == [""];
    }
    EndsEmptyCons(SplitOn(s, sep), s[..i], SplitOn(tail, sep));
  }

  /** The last of a list of pieces is empty. */
  predicate EndsEmpty(r: seq<string>) {
    |r| > 0 && r[|r| - 1] == ""
  }

  lemma EndsEmptyCons(r: seq<string>, x: string, xs: seq<string>)
    requires r == [x] + xs && EndsEmpty(xs)
    ensures EndsEmpty(r)
  {
  }

  /** Splitting at the first separator: the piece before it, then the
      pieces of the rest. */
  lemma SplitOnStep(s: string, sep: char, i: nat)
    requires IndexOf(s, sep) == Some(i)
    ensures SplitOn(s, sep) == [s[..i]] + SplitOn(s[i + 1..], sep)
  {
  }

  /** `s.split(sep)[0]` for a non-empty separator: the text before the
      first occurrence of `sep`, or all of `s` when there is none. */
  function TextBefore(s: string, sep: string): (r: string)
    requires |sep| > 0
    ensures StartsWith(s, r)
    ensures r == s || OccursAt(s, sep, |r|)
    ensures forall i :: 0 <= i < |r| ==> !OccursAt(s, sep, i)
    decreases |s|
  {
    if |s| == 0 || StartsWith(s, sep) then ""
    else
      var rest := TextBefore(s[1..], sep);
      forall i | 1 <= i <= |rest| ensures OccursAt(s, sep, i) == OccursAt(s[1..], sep, i - 1) {
        if i <= |s| - |sep| {
          SliceShift(s, i, |sep|);
        }
      }
      assert [s[0]] + rest == s[..|rest| + 1];
      [s[0]] + rest
  }

  lemma SliceShift<T>(s: seq<T>, i: nat, n: nat)
    requires 1 <= i && i + n <= |s|
    ensures s[i..i + n] == s[1..][i - 1..i - 1 + n]
  {
  }

  /** Text joined to more text by a separator whose second character it
      does not hold reads back as itself. */
  lemma {:induction false} TextBeforeJoined(a: string, sep: string, b: string)
    requires |sep| >= 2 && sep[0] != sep[1] && sep[1] !in a
    ensures TextBefore(a + sep + b, sep) == a
    decreases |a|
  {
    var s := a + sep + b;
    if |a| == 0 {
      assert s[..|sep|] == sep;
    } else {
      assert s[1] != sep[1] by {
        if |a| == 1 { assert s[1] == sep[0]; } else { assert s[1] == a[1]; }
      }
      assert !StartsWith(s, sep);
      assert s[1..] == a[1..] + sep + b;
      TextBeforeJoined(a[1..], sep, b);
      assert [a[0]] + a[1..] == a;
    }
  }

  function DigitChar(d: nat): char
    requires d < 10
  {
    "0123456789"[d]
  }

  function DigitValue(c: char): nat {
    if '0' <= c <= '9' then c as int - '0' as int else 0
  }

  /** Decimal text of a count, as `${n}` prints a non-negative integer. */
  function NatToString(n: nat): (r: string)
    ensures |r| >= 1
    ensures forall i :: 0 <= i < |r| ==> '0' <= r[i] <= '9'
    ensures DecimalValue(r) == n
    decreases n
  {
    if n < 10 then [DigitChar(n)]
    else
      var r := NatToString(n / 10) + [DigitChar(n % 10)];
      assert r[..|r| - 1] == NatToString(n / 10);
      r
  }

  /** The number a string of decimal digits denotes. */
  function DecimalValue(s: string): nat
    decreases |s|
  {
    if |s| == 0 then 0 else 10 * DecimalValue(s[..|s| - 1]) + DigitValue(s[|s| - 1])
  }

  /** `s.length`: the number of UTF-16 code units, two for a code point
      outside the Basic Multilingual Plane. */
  function Utf16Length(s: string): (n: nat)
    ensures |s| <= n <= 2 * |s|
    ensures n == |s| <==> forall i :: 0 <= i < |s| ==> s[i] as int < 0x1_0000
    decreases |s|
  {
    if |s| == 0 then 0
    else (if s[0] as int >= 0x1_0000 then 2 else 1) + Utf16Length(s[1..])
  }
}
