/**
 * String operations of the JavaScript runtime that the client code relies on:
 * the `\s` class and `trim`, `split`/`join`, `includes`, `toLowerCase`,
 * `String(n)` for integers, and the `a || b` fallback on optional strings.
 */
module Strings {
  import opened Wrappers

  /**
   * ECMAScript WhiteSpace and LineTerminator code points: the set matched by
   * the regular-expression class `\s` and removed by `trim`.
   */
  predicate IsJsSpace(c: char) {
    var n := c as int;
    n == 0x09 || n == 0x0A || n == 0x0B || n == 0x0C || n == 0x0D || n == 0x20
    || n == 0xA0 || n == 0x1680 || (0x2000 <= n <= 0x200A) || n == 0x2028 || n == 0x2029
    || n == 0x202F || n == 0x205F || n == 0x3000 || n == 0xFEFF
  }

  predicate AllSpaces(s: string) {
    forall i :: 0 <= i < |s| ==> IsJsSpace(s[i])
  }

  /** No two adjacent characters of `s` are both whitespace. */
  predicate NoDoubleSpace(s: string) {
    forall i :: 1 <= i < |s| ==> !(IsJsSpace(s[i - 1]) && IsJsSpace(s[i]))
  }

  /** The only whitespace in `s` is the plain space. */
  predicate PlainSpaces(s: string) {
    forall i :: 0 <= i < |s| && IsJsSpace(s[i]) ==> s[i] == ' '
  }

  /** A slice of a text whose whitespace is plain spaces has only plain spaces too. */
  lemma PlainSpacesSlice(s: string, r: string, k: int)
    requires PlainSpaces(s) && OccursAt(s, r, k)
    ensures PlainSpaces(r)
  {
    forall i | 0 <= i < |r| && IsJsSpace(r[i]) ensures r[i] == ' ' {
      assert r[i] == s[k + i];
    }
  }

  /** `s.trimStart()`: `s` is some whitespace followed by the result, which starts with a non-space. */
  function TrimStart(s: string): (r: string)
    ensures |r| <= |s| && r == s[|s| - |r|..]
    ensures AllSpaces(s[..|s| - |r|])
    ensures r == [] || !IsJsSpace(r[0])
  {
    if |s| == 0 || !IsJsSpace(s[0]) then s
    else
      var t := TrimStart(s[1..]);
      var pre := s[1..][..|s| - 1 - |t|];
      AllSpacesCons(s[0], pre);
      assert s[..|s| - |t|] == [s[0]] + pre;
      assert s[1..][|s| - 1 - |t|..] == s[|s| - |t|..];
      t
  }

  /** Whitespace in front of an all-whitespace text leaves it all whitespace. */
  lemma AllSpacesCons(c: char, x: string)
    requires IsJsSpace(c) && AllSpaces(x)
    ensures AllSpaces([c] + x)
  {
    forall i | 0 <= i < |[c] + x| ensures IsJsSpace(([c] + x)[i]) {
      if i > 0 { assert ([c] + x)[i] == x[i - 1]; }
    }
  }

  /** `s` is the whitespace `trimStart` drops followed by what it keeps. */
  lemma TrimStartSplit(s: string)
    ensures s == s[..|s| - |TrimStart(s)|] + TrimStart(s)
  {
    var t := TrimStart(s);
    var pre := s[..|s| - |t|];
    assert s == pre + t;
  }

  /** `s.trimEnd()`: the result is followed in `s` by whitespace only and ends with a non-space. */
  function TrimEnd(s: string): (r: string)
    ensures |r| <= |s| && r == s[..|r|]
    ensures AllSpaces(s[|r|..])
    ensures r == [] || !IsJsSpace(r[|r| - 1])
  {
    if |s| == 0 || !IsJsSpace(s[|s| - 1]) then s
    else
      var t := TrimEnd(s[..|s| - 1]);
      assert s[|t|..] == s[..|s| - 1][|t|..] + [s[|s| - 1]];
      t
  }

  /** `r` occurs in `s` starting at index `k`. */
  predicate OccursAt(s: string, r: string, k: int) {
    0 <= k && k + |r| <= |s| && s[k..k + |r|] == r
  }

  /** `s.trim()`: a contiguous slice of `s` with no whitespace at either end. */
  function Trim(s: string): (r: string)
    ensures exists k :: OccursAt(s, r, k)
    ensures r == [] || (!IsJsSpace(r[0]) && !IsJsSpace(r[|r| - 1]))
    ensures AllSpaces(s) <==> r == []
  {
    var t := TrimStart(s);
    var r := TrimEnd(t);
    TrimSlice(s, t, r);
    r
  }

  /**
   * `s[i..j]` is the part of `s` between its leading and trailing whitespace:
   * it starts and ends with a non-space, and only whitespace lies outside it.
   */
  predicate TrimBounds(s: string, i: int, j: int) {
    0 <= i < j <= |s| && !IsJsSpace(s[i]) && !IsJsSpace(s[j - 1]) && AllSpaces(s[..i]) && AllSpaces(s[j..])
  }

  /** Every character before `i` is whitespace. */
  lemma SpacesBefore(s: string, i: int)
    requires 0 <= i <= |s| && AllSpaces(s[..i])
    ensures forall x :: 0 <= x < i ==> IsJsSpace(s[x])
  {
    assert forall x :: 0 <= x < i ==> s[..i][x] == s[x];
  }

  /** Every character from `m` on is whitespace. */
  lemma SpacesFrom(s: string, m: int)
    requires 0 <= m <= |s| && AllSpaces(s[m..])
    ensures forall x :: m <= x < |s| ==> IsJsSpace(s[x])
  {
    assert forall x :: m <= x < |s| ==> s[m..][x - m] == s[x];
  }

  /** Whitespace up to a non-space at `i` is exactly what `trimStart` removes. */
  lemma TrimStartAt(s: string, i: int)
    requires 0 <= i < |s| && !IsJsSpace(s[i]) && AllSpaces(s[..i])
    ensures TrimStart(s) == s[i..]
  {
    var t := TrimStart(s);
    var k := |s| - |t|;
    SpacesBefore(s, i);
    SpacesBefore(s, k);
    assert |t| > 0 ==> t[0] == s[k];
    assert k == i;
  }

  /** Whitespace after a non-space at `m - 1` is exactly what `trimEnd` removes. */
  lemma TrimEndAt(t: string, m: int)
    requires 0 < m <= |t| && !IsJsSpace(t[m - 1]) && AllSpaces(t[m..])
    ensures TrimEnd(t) == t[..m]
  {
    var r := TrimEnd(t);
    SpacesFrom(t, m);
    SpacesFrom(t, |r|);
    assert |r| > 0 ==> r[|r| - 1] == t[|r| - 1];
    assert |r| == m;
  }

  /** After its start `i`, the non-space part ending at `j` is what `trimEnd` keeps. */
  lemma TrimEndOfSuffixAt(s: string, i: int, j: int)
    requires 0 <= i < j <= |s| && !IsJsSpace(s[j - 1]) && AllSpaces(s[j..])
    ensures TrimEnd(s[i..]) == s[i..j]
  {
    var t := s[i..];
    assert t[j - i - 1] == s[j - 1];
    assert t[j - i..] == s[j..];
    TrimEndAt(t, j - i);
    assert t[..j - i] == s[i..j];
  }

  /** Any bounds of the non-space part of `s` are where `trim` cuts. */
  lemma TrimOfBounds(s: string, i: int, j: int)
    requires TrimBounds(s, i, j)
    ensures Trim(s) == s[i..j]
  {
    TrimStartAt(s, i);
    TrimEndOfSuffixAt(s, i, j);
  }

  /** From a non-space start `i` after whitespace, `trimEnd` of the rest ends the non-space part. */
  lemma BoundsOfTrimEnd(s: string, i: int)
    requires 0 <= i < |s| && !IsJsSpace(s[i]) && AllSpaces(s[..i])
    ensures TrimBounds(s, i, i + |TrimEnd(s[i..])|)
  {
    var t := s[i..];
    var r := TrimEnd(t);
    var j := i + |r|;
    SpacesFrom(t, |r|);
    assert t[0] == s[i];
    assert |r| > 0;
    assert s[j - 1] == t[|r| - 1] == r[|r| - 1];
    assert s[j..] == t[|r|..];
  }

  /** A text that is not all whitespace has the bounds `trim` cuts at. */
  lemma BoundsOfTrim(s: string)
    requires !AllSpaces(s)
    ensures TrimBounds(s, |s| - |TrimStart(s)|, |s| - |TrimStart(s)| + |Trim(s)|)
  {
    var t := TrimStart(s);
    var i := |s| - |t|;
    assert i < |s| && !IsJsSpace(s[i]) && AllSpaces(s[..i]) && t == s[i..] by {
      var x :| 0 <= x < |s| && !IsJsSpace(s[x]);
      SpacesBefore(s, i);
      assert i <= x;
    }
    BoundsOfTrimEnd(s, i);
  }

  /** `s.trim().length >= n`, for a positive `n`, stated through the bounds of the non-space part. */
  lemma TrimmedLengthBounds(s: string, n: nat)
    requires n > 0
    ensures |Trim(s)| >= n <==> exists i, j :: TrimBounds(s, i, j) && j - i >= n
  {
    if |Trim(s)| >= n {
      assert !AllSpaces(s);
      BoundsOfTrim(s);
    }
    if exists i, j :: TrimBounds(s, i, j) && j - i >= n {
      var i, j :| TrimBounds(s, i, j) && j - i >= n;
      TrimOfBounds(s, i, j);
    }
  }

  lemma TrimSlice(s: string, t: string, r: string)
    requires |t| <= |s| && t == s[|s| - |t|..] && AllSpaces(s[..|s| - |t|])
    requires |r| <= |t| && r == t[..|r|] && AllSpaces(t[|r|..])
    requires r == [] || !IsJsSpace(r[0])
    ensures OccursAt(s, r, |s| - |t|)
    ensures AllSpaces(s) <==> r == []
  {
    var k := |s| - |t|;
    PrefixOfSuffix(s, t, r, k);
    EmptyTrimIffSpaces(s, k, t, r);
  }

  /** Whitespace, then a text whose whitespace-free part is `r`: `r` is empty exactly when all was whitespace. */
  lemma EmptyTrimIffSpaces(s: string, k: nat, t: string, r: string)
    requires k <= |s| && t == s[k..] && AllSpaces(s[..k])
    requires |r| <= |t| && r == t[..|r|] && AllSpaces(t[|r|..])
    requires r == [] || !IsJsSpace(r[0])
    ensures AllSpaces(s) <==> r == []
  {
    if r == [] {
      assert t[|r|..] == t;
      assert s == s[..k] + t;
      AllSpacesConcat(s[..k], t);
    } else {
      assert s[k] == r[0];
    }
  }

  lemma PrefixOfSuffix(s: string, t: string, r: string, k: nat)
    requires k <= |s| && t == s[k..] && |r| <= |t| && r == t[..|r|]
    ensures OccursAt(s, r, k)
  {
  }

  lemma AllSpacesConcat(a: string, b: string)
    requires AllSpaces(a) && AllSpaces(b)
    ensures AllSpaces(a + b)
  {
    forall i | 0 <= i < |a + b| ensures IsJsSpace((a + b)[i]) {
      if i >= |a| {
        assert (a + b)[i] == b[i - |a|];
      }
    }
  }

  /** Every slice of a string without adjacent spaces has none either. */
  lemma NoDoubleSpaceSlice(s: string, r: string, k: int)
    requires NoDoubleSpace(s)
    requires OccursAt(s, r, k)
    ensures NoDoubleSpace(r)
  {
    forall i | 1 <= i < |r|
      ensures !(IsJsSpace(r[i - 1]) && IsJsSpace(r[i]))
    {
      assert r[i - 1] == s[k + i - 1] && r[i] == s[k + i];
    }
  }

  /** The characters of `s` that are not whitespace, in order. */
  function NonSpaces(s: string): string {
    if |s| == 0 then []
    else if IsJsSpace(s[0]) then NonSpaces(s[1..])
    else [s[0]] + NonSpaces(s[1..])
  }

  lemma {:induction false} NonSpacesOfSpaces(s: string, t: string)
    requires AllSpaces(s)
    ensures NonSpaces(s + t) == NonSpaces(t)
  {
    if |s| > 0 {
      assert (s + t)[1..] == s[1..] + t;
      NonSpacesOfSpaces(s[1..], t);
    } else {
      assert s + t == t;
    }
  }

  /** Dropping whitespace distributes over concatenation. */
  lemma {:induction false} NonSpacesConcat(a: string, b: string)
    ensures NonSpaces(a + b) == NonSpaces(a) + NonSpaces(b)
  {
    if |a| == 0 {
      assert a + b == b;
    } else {
      assert (a + b)[1..] == a[1..] + b;
      NonSpacesConcat(a[1..], b);
    }
  }

  /** Trimming removes whitespace only. */
  lemma TrimKeepsNonSpaces(s: string)
    ensures NonSpaces(Trim(s)) == NonSpaces(s)
  {
    TrimStartKeepsNonSpaces(s);
    TrimEndKeepsNonSpaces(TrimStart(s));
  }

  lemma TrimStartKeepsNonSpaces(s: string)
    ensures NonSpaces(TrimStart(s)) == NonSpaces(s)
  {
    var t := TrimStart(s);
    var pre := s[..|s| - |t|];
    assert s == pre + t;
    NonSpacesOfSpaces(pre, t);
  }

  lemma TrimEndKeepsNonSpaces(t: string)
    ensures NonSpaces(TrimEnd(t)) == NonSpaces(t)
  {
    var r := TrimEnd(t);
    var tail := t[|r|..];
    assert t == r + tail;
    NonSpacesConcat(r, tail);
    NonSpacesOfSpaces(tail, []);
    assert tail + [] == tail;
  }

  /** A string with no whitespace at either end is its own trim. */
  lemma TrimOfTrimmed(s: string)
    requires s == [] || (!IsJsSpace(s[0]) && !IsJsSpace(s[|s| - 1]))
    ensures Trim(s) == s
  {
  }

  /**
   * `s.replace(/\s+/g, ' ')`: every maximal run of whitespace becomes one
   * space; everything else is kept in order.
   */
  function CollapseSpaces(s: string): (r: string)
    ensures |r| <= |s|
    ensures |s| > 0 ==> |r| > 0 && (IsJsSpace(s[0]) <==> r[0] == ' ') && (!IsJsSpace(s[0]) ==> r[0] == s[0])
    ensures NoDoubleSpace(r)
    ensures PlainSpaces(r)
    ensures NonSpaces(r) == NonSpaces(s)
    decreases |s|
  {
    if |s| == 0 then []
    else if IsJsSpace(s[0]) then
      var t := TrimStart(s);
      var rest := CollapseSpaces(t);
      assert s == s[..|s| - |t|] + t;
      NonSpacesOfSpaces(s[..|s| - |t|], t);
      assert NonSpaces([' '] + rest) == NonSpaces(rest) by {
        assert ([' '] + rest)[1..] == rest;
      }
      [' '] + rest
    else
      var rest := CollapseSpaces(s[1..]);
      assert ([s[0]] + rest)[1..] == rest;
      [s[0]] + rest
  }

  /** A string whose only whitespace is single plain spaces is left as it is by the collapse. */
  lemma {:induction false} CollapseSpacesOfCollapsed(s: string)
    requires NoDoubleSpace(s)
    requires PlainSpaces(s)
    ensures CollapseSpaces(s) == s
  {
    if |s| > 0 {
      var rest := s[1..];
      assert NoDoubleSpace(rest) by {
        forall i | 1 <= i < |rest| ensures !(IsJsSpace(rest[i - 1]) && IsJsSpace(rest[i])) {
          assert rest[i - 1] == s[i] && rest[i] == s[i + 1];
        }
      }
      CollapseSpacesOfCollapsed(rest);
      if IsJsSpace(s[0]) {
        assert rest == [] || !IsJsSpace(rest[0]) by {
          if rest != [] { assert rest[0] == s[1]; }
        }
        TrimStartOfSingleSpace(s);
      }
      assert [s[0]] + rest == s;
    }
  }

  lemma TrimStartOfSingleSpace(s: string)
    requires |s| > 0 && IsJsSpace(s[0])
    requires |s| == 1 || !IsJsSpace(s[1])
    ensures TrimStart(s) == s[1..]
  {
    assert TrimStart(s) == TrimStart(s[1..]);
    assert s[1..] == [] || !IsJsSpace(s[1..][0]);
  }

  /** A word: a non-empty run of non-whitespace characters. */
  predicate IsWord(w: string) {
    w != [] && forall i :: 0 <= i < |w| ==> !IsJsSpace(w[i])
  }

  /**
   * The words of `s`: its maximal runs of non-whitespace characters, in
   * order. A non-space character extends the word the next character
   * starts, and is a word of its own when whitespace or the end follows.
   */
  function Words(s: string): (ws: seq<string>)
    ensures forall k :: 0 <= k < |ws| ==> IsWord(ws[k])
    ensures ws == [] <==> AllSpaces(s)
    ensures |s| > 0 && !IsJsSpace(s[0]) ==> ws != [] && IsWord(ws[0]) && ws[0][0] == s[0]
    decreases |s|
  {
    if |s| == 0 then []
    else if IsJsSpace(s[0]) then
      assert AllSpaces(s) <==> AllSpaces(s[1..]) by {
        if AllSpaces(s[1..]) {
          forall i | 0 <= i < |s| ensures IsJsSpace(s[i]) {
            if i > 0 { assert s[i] == s[1..][i - 1]; }
          }
        }
      }
      Words(s[1..])
    else
      var rest := Words(s[1..]);
      if |s| > 1 && !IsJsSpace(s[1]) then
        assert s[1..][0] == s[1];
        [[s[0]] + rest[0]] + rest[1..]
      else
        [[s[0]]] + rest
  }

  /** Leading whitespace carries no word. */
  lemma {:induction false} WordsSkipSpaces(s: string)
    ensures Words(TrimStart(s)) == Words(s)
    decreases |s|
  {
    if |s| > 0 && IsJsSpace(s[0]) {
      WordsSkipSpaces(s[1..]);
    }
  }

  /** A word followed by whitespace or nothing is the first word of the whole. */
  lemma {:induction false} WordsOfWordThen(w: string, t: string)
    requires IsWord(w)
    requires t == [] || IsJsSpace(t[0])
    ensures Words(w + t) == [w] + Words(t)
    decreases |w|
  {
    var s := w + t;
    assert s[1..] == w[1..] + t;
    if |w| > 1 {
      WordsOfWordThen(w[1..], t);
      assert s[1] == w[1];
      assert [w[0]] + w[1..] == w;
    } else {
      assert w == [w[0]];
      assert w[1..] + t == t;
      assert |s| > 1 ==> s[1] == t[0];
    }
  }

  /** Joining words with single spaces and taking the words back gives the same words. */
  lemma {:induction false} WordsJoinRoundTrip(ws: seq<string>)
    requires forall k :: 0 <= k < |ws| ==> IsWord(ws[k])
    ensures Words(JoinWith(ws, " ")) == ws
  {
    if |ws| == 1 {
      WordsOfWordThen(ws[0], []);
      assert ws[0] + [] == ws[0];
    } else if |ws| > 1 {
      var rest := JoinWith(ws[1..], " ");
      WordsJoinRoundTrip(ws[1..]);
      assert ws[0] + " " + rest == ws[0] + ([' '] + rest);
      WordsOfWordThen(ws[0], [' '] + rest);
      assert ([' '] + rest)[1..] == rest;
      assert [ws[0]] + ws[1..] == ws;
    }
  }

  /** A leading space does not change the trim. */
  lemma TrimAfterSpace(x: string)
    ensures Trim([' '] + x) == Trim(x)
  {
    assert ([' '] + x)[1..] == x;
    assert TrimStart([' '] + x) == TrimStart(x);
  }

  /** Text that starts with a non-space loses only its trailing whitespace. */
  lemma TrimOfNonSpaceHead(x: string)
    requires x == [] || !IsJsSpace(x[0])
    ensures Trim(x) == TrimEnd(x)
  {
    assert TrimStart(x) == x;
  }

  /** Trailing whitespace is found within the part that is not all whitespace. */
  lemma {:induction false} TrimEndAfterPrefix(p: string, x: string)
    requires !AllSpaces(x)
    ensures TrimEnd(p + x) == p + TrimEnd(x)
    decreases |x|
  {
    var n := |p + x|;
    assert (p + x)[n - 1] == x[|x| - 1];
    if IsJsSpace(x[|x| - 1]) {
      var y := x[..|x| - 1];
      assert !AllSpaces(y) by {
        var i :| 0 <= i < |x| && !IsJsSpace(x[i]);
        assert i < |x| - 1 && y[i] == x[i];
      }
      assert (p + x)[..n - 1] == p + y;
      TrimEndAfterPrefix(p, y);
    }
  }

  /** Whitespace after a non-space is all trimmed off the end. */
  lemma {:induction false} TrimEndOfSpaces(p: string, x: string)
    requires p != [] && !IsJsSpace(p[|p| - 1]) && AllSpaces(x)
    ensures TrimEnd(p + x) == p
    decreases |x|
  {
    if |x| > 0 {
      var n := |p + x|;
      assert (p + x)[n - 1] == x[|x| - 1];
      assert (p + x)[..n - 1] == p + x[..|x| - 1];
      TrimEndOfSpaces(p, x[..|x| - 1]);
    } else {
      assert p + x == p;
    }
  }

  /** A non-space in front of a text stays in front of its trailing-trimmed form. */
  lemma TrimEndAfterChar(c: char, x: string)
    requires !IsJsSpace(c)
    ensures TrimEnd([c] + x) == [c] + TrimEnd(x)
  {
    if AllSpaces(x) {
      TrimEndOfSpaces([c], x);
      TrimEndOfAllSpaces(x);
    } else {
      TrimEndAfterPrefix([c], x);
    }
  }

  /** Whitespace-only text trims to nothing from the start. */
  lemma TrimStartOfSpaces(s: string)
    requires AllSpaces(s)
    ensures TrimStart(s) == []
  {
  }

  /** Whitespace-only text trims to nothing from the end. */
  lemma TrimEndOfAllSpaces(s: string)
    requires AllSpaces(s)
    ensures TrimEnd(s) == []
  {
  }

  /** A word followed by a word list joins to the word, a space, and the joined list. */
  lemma JoinWithCons(w: string, ws: seq<string>, sep: string)
    ensures JoinWith([w] + ws, sep) == if ws == [] then w else w + sep + JoinWith(ws, sep)
  {
    assert ([w] + ws)[1..] == ws;
  }

  /** Growing the first word by a character in front grows the joined text the same way. */
  lemma JoinWithGrowFirst(c: char, ws: seq<string>, sep: string)
    requires ws != []
    ensures JoinWith([[c] + ws[0]] + ws[1..], sep) == [c] + JoinWith(ws, sep)
  {
    JoinWithCons([c] + ws[0], ws[1..], sep);
    JoinWithCons(ws[0], ws[1..], sep);
    assert [ws[0]] + ws[1..] == ws;
  }

  /** The collapse of a text that starts with whitespace: one space, then the collapse of the rest after the run. */
  lemma CollapseSpacesSpaceHead(s: string)
    requires |s| > 0 && IsJsSpace(s[0])
    ensures |TrimStart(s)| < |s|
    ensures CollapseSpaces(s) == [' '] + CollapseSpaces(TrimStart(s))
  {
    assert TrimStart(s) == TrimStart(s[1..]);
  }

  /** The collapse of a text that starts with a non-space keeps that character in front. */
  lemma CollapseSpacesCharHead(s: string)
    requires |s| > 0 && !IsJsSpace(s[0])
    ensures CollapseSpaces(s) == [s[0]] + CollapseSpaces(s[1..])
  {
  }

  /**
   * The collapse ends in a space exactly when the text ends in whitespace;
   * with `NoDoubleSpace`, a trailing run of whitespace becomes exactly one
   * space, as a leading one does.
   */
  lemma {:induction false} CollapseSpacesLast(s: string)
    requires |s| > 0
    ensures |CollapseSpaces(s)| > 0
    ensures IsJsSpace(s[|s| - 1]) <==> CollapseSpaces(s)[|CollapseSpaces(s)| - 1] == ' '
    ensures !IsJsSpace(s[|s| - 1]) ==> CollapseSpaces(s)[|CollapseSpaces(s)| - 1] == s[|s| - 1]
    decreases |s|
  {
    if IsJsSpace(s[0]) {
      CollapseSpacesSpaceHead(s);
      var t := TrimStart(s);
      if |t| > 0 {
        CollapseSpacesLast(t);
        assert t[|t| - 1] == s[|s| - 1];
      } else {
        assert s[..|s|] == s;
        assert IsJsSpace(s[|s| - 1]);
      }
    } else {
      CollapseSpacesCharHead(s);
      if |s| > 1 {
        CollapseSpacesLast(s[1..]);
        assert s[1..][|s| - 2] == s[|s| - 1];
      }
    }
  }

  /** The step for a text that starts with whitespace. */
  lemma CollapseStepSpace(s: string)
    requires |s| > 0 && IsJsSpace(s[0])
    requires Trim(CollapseSpaces(TrimStart(s))) == JoinWith(Words(TrimStart(s)), " ")
    ensures Trim(CollapseSpaces(s)) == JoinWith(Words(s), " ")
  {
    CollapseSpacesSpaceHead(s);
    TrimAfterSpace(CollapseSpaces(TrimStart(s)));
    WordsSkipSpaces(s);
  }

  /** A non-space in front stays in front of the trim, which only trims the end. */
  lemma TrimAfterChar(c: char, x: string)
    requires !IsJsSpace(c)
    ensures Trim([c] + x) == [c] + TrimEnd(x)
  {
    assert TrimStart([c] + x) == [c] + x;
    TrimEndAfterChar(c, x);
  }

  /** A non-space followed by another non-space extends the first word of the rest. */
  lemma WordsInWord(s: string)
    requires |s| > 1 && !IsJsSpace(s[0]) && !IsJsSpace(s[1])
    ensures Words(s[1..]) != []
    ensures Words(s) == [[s[0]] + Words(s[1..])[0]] + Words(s[1..])[1..]
  {
    assert s[1..][0] == s[1];
  }

  /** A non-space followed by whitespace or the end is a one-character word. */
  lemma WordsAtWordEnd(s: string)
    requires |s| > 0 && !IsJsSpace(s[0]) && (|s| == 1 || IsJsSpace(s[1]))
    ensures Words(s) == [[s[0]]] + Words(s[1..])
  {
  }

  /** The step for a non-space followed by the end or by another non-space. */
  lemma CollapseStepInWord(s: string)
    requires |s| > 0 && !IsJsSpace(s[0])
    requires |s| == 1 || !IsJsSpace(s[1])
    requires Trim(CollapseSpaces(s[1..])) == JoinWith(Words(s[1..]), " ")
    ensures Trim(CollapseSpaces(s)) == JoinWith(Words(s), " ")
  {
    var c, u := s[0], s[1..];
    var cu := CollapseSpaces(u);
    CollapseSpacesCharHead(s);
    TrimAfterChar(c, cu);
    if |u| == 0 {
      WordsAtWordEnd(s);
    } else {
      assert u[0] == s[1];
      TrimOfNonSpaceHead(cu);
      WordsInWord(s);
      JoinWithGrowFirst(c, Words(u), " ");
    }
  }

  /** After a space, the collapse of a text that starts with a word trims at the end to the space and the joined words. */
  lemma TrimEndSpaceThenCollapse(t: string)
    requires t == [] || !IsJsSpace(t[0])
    requires Trim(CollapseSpaces(t)) == JoinWith(Words(t), " ")
    ensures TrimEnd([' '] + CollapseSpaces(t)) == if t == [] then [] else [' '] + JoinWith(Words(t), " ")
  {
    var ct := CollapseSpaces(t);
    if t == [] {
      assert TrimEnd([' '] + ct) == TrimEnd([]);
    } else {
      assert !AllSpaces(ct) by { assert !IsJsSpace(ct[0]); }
      TrimEndAfterPrefix([' '], ct);
      TrimOfNonSpaceHead(ct);
    }
  }

  /** A character, then a space, then a text, however the concatenation is grouped. */
  lemma SpaceAfterChar(c: char, x: string)
    ensures [c] + ([' '] + x) == [c] + " " + x
  {
    assert " " == [' '];
  }

  /** The step for a non-space followed by whitespace. */
  lemma CollapseStepWordEnd(s: string)
    requires |s| > 1 && !IsJsSpace(s[0]) && IsJsSpace(s[1])
    requires Trim(CollapseSpaces(TrimStart(s[1..]))) == JoinWith(Words(TrimStart(s[1..])), " ")
    ensures Trim(CollapseSpaces(s)) == JoinWith(Words(s), " ")
  {
    var c, u := s[0], s[1..];
    assert u[0] == s[1];
    var t := TrimStart(u);
    var ct, wt := CollapseSpaces(t), Words(t);
    CollapseSpacesCharHead(s);
    CollapseSpacesSpaceHead(u);
    assert CollapseSpaces(s) == [c] + ([' '] + ct);
    TrimAfterChar(c, [' '] + ct);
    TrimEndSpaceThenCollapse(t);
    WordsAtWordEnd(s);
    WordsSkipSpaces(u);
    assert Words(s) == [[c]] + wt;
    JoinWithCons([c], wt, " ");
    if t == [] {
      assert wt == [];
    } else {
      assert wt != [] by { assert !IsJsSpace(t[0]); }
      SpaceAfterChar(c, JoinWith(wt, " "));
    }
  }

  /**
   * `s.replace(/\s+/g, ' ').trim()` is the words of `s` joined by single
   * spaces: no word is lost, split, glued to its neighbour or reordered.
   */
  lemma {:induction false} CollapseTrimJoinsWords(s: string)
    ensures Trim(CollapseSpaces(s)) == JoinWith(Words(s), " ")
    decreases |s|
  {
    if |s| == 0 {
    } else if IsJsSpace(s[0]) {
      CollapseSpacesSpaceHead(s);
      CollapseTrimJoinsWords(TrimStart(s));
      CollapseStepSpace(s);
    } else if |s| == 1 || !IsJsSpace(s[1]) {
      CollapseTrimJoinsWords(s[1..]);
      CollapseStepInWord(s);
    } else {
      assert s[1..][0] == s[1];
      CollapseSpacesSpaceHead(s[1..]);
      CollapseTrimJoinsWords(TrimStart(s[1..]));
      CollapseStepWordEnd(s);
    }
  }

  /** `s.slice(0, n)` for `n >= 0`. */
  function Take(s: string, n: nat): (r: string)
    ensures |r| <= n && |r| <= |s|
    ensures r == s[..|r|]
    ensures |s| <= n ==> r == s
    ensures |s| > n ==> |r| == n
  {
    if |s| <= n then s else s[..n]
  }

  /** The last index holding `c`, or -1 (`lastIndexOf`). */
  function LastIndexOf(s: string, c: char): (k: int)
    ensures -1 <= k < |s|
    ensures k >= 0 ==> s[k] == c && forall j :: k < j < |s| ==> s[j] != c
    ensures k == -1 ==> c !in s
  {
    if |s| == 0 then -1
    else if s[|s| - 1] == c then |s| - 1
    else
      var k := LastIndexOf(s[..|s| - 1], c);
      assert s == s[..|s| - 1] + [s[|s| - 1]];
      k
  }

  /** `parts.join(sep)` for a separator string. */
  function JoinWith(parts: seq<string>, sep: string): string {
    if |parts| == 0 then ""
    else if |parts| == 1 then parts[0]
    else parts[0] + sep + JoinWith(parts[1..], sep)
  }

  /** `s.startsWith(p)`. */
  predicate StartsWith(s: string, p: string) {
    |p| <= |s| && s[..|p|] == p
  }

  /** `s.includes(sub)`, by scanning; its meaning is stated as an existential. */
  predicate Contains(s: string, sub: string)
    ensures Contains(s, sub) <==> exists i :: OccursAt(s, sub, i)
  {
    if StartsWith(s, sub) then
      assert OccursAt(s, sub, 0);
      true
    else if |s| == 0 then
      assert forall i :: !OccursAt(s, sub, i);
      false
    else
      var found := Contains(s[1..], sub);
      assert found ==> exists i :: OccursAt(s, sub, i) by {
        if found {
          var j :| OccursAt(s[1..], sub, j);
          assert OccursAt(s, sub, j + 1);
        }
      }
      assert (exists i :: OccursAt(s, sub, i)) ==> found by {
        if exists i :: OccursAt(s, sub, i) {
          var i :| OccursAt(s, sub, i);
          assert i != 0;
          assert OccursAt(s[1..], sub, i - 1);
        }
      }
      found
  }

  /** `toLowerCase` for ASCII and for the Cyrillic letters of Ukrainian and Russian. */
  function LowerChar(c: char): char {
    var n := c as int;
    if 0x41 <= n <= 0x5A then (n + 0x20) as char
    else if 0x410 <= n <= 0x42F then (n + 0x20) as char
    else if 0x400 <= n <= 0x40F then (n + 0x50) as char
    else if n == 0x490 then 0x491 as char
    else c
  }

  function ToLower(s: string): (r: string)
    ensures |r| == |s|
    ensures forall i :: 0 <= i < |s| ==> r[i] == LowerChar(s[i])
  {
    if |s| == 0 then [] else [LowerChar(s[0])] + ToLower(s[1..])
  }

  /** `a || fallback` for an optional string: `null`, `undefined` and `''` are falsy. */
  function OrElse(a: Option<string>, fallback: string): (r: string)
    ensures a.Some? && a.value != "" ==> r == a.value
    ensures a.None? || a.value == "" ==> r == fallback
  {
    if a.Some? && a.value != "" then a.value else fallback
  }

  /** `s.split(c)` for a one-character separator, as JavaScript does it (never empty). */
  function Split(s: string, c: char): (r: seq<string>)
    ensures |r| >= 1
    ensures forall k :: 0 <= k < |r| ==> c !in r[k]
  {
    if |s| == 0 then [""]
    else
      var rest := Split(s[1..], c);
      if s[0] == c then [""] + rest else [[s[0]] + rest[0]] + rest[1..]
  }

  /** `parts.join(c)`. */
  function Join(parts: seq<string>, c: char): string {
    if |parts| == 0 then ""
    else if |parts| == 1 then parts[0]
    else parts[0] + [c] + Join(parts[1..], c)
  }

  lemma {:induction false} SplitPrefix(p: string, c: char, rest: string)
    requires c !in p
    ensures Split(p + [c] + rest, c) == [p] + Split(rest, c)
  {
    if |p| == 0 {
      assert (p + [c] + rest)[1..] == rest;
    } else {
      assert (p + [c] + rest)[1..] == p[1..] + [c] + rest;
      SplitPrefix(p[1..], c, rest);
      assert [p[0]] + p[1..] == p;
    }
  }

  lemma {:induction false} SplitNoSeparator(p: string, c: char)
    requires c !in p
    ensures Split(p, c) == [p]
  {
    if |p| > 0 {
      SplitNoSeparator(p[1..], c);
      assert [p[0]] + p[1..] == p;
    }
  }

  /** Splitting a join recovers the parts, provided no part holds the separator. */
  lemma {:induction false} SplitJoin(parts: seq<string>, c: char)
    requires |parts| >= 1
    requires forall k :: 0 <= k < |parts| ==> c !in parts[k]
    ensures Split(Join(parts, c), c) == parts
  {
    if |parts| == 1 {
      SplitNoSeparator(parts[0], c);
    } else {
      SplitJoin(parts[1..], c);
      SplitPrefix(parts[0], c, Join(parts[1..], c));
      assert [parts[0]] + parts[1..] == parts;
    }
  }

  /** Decimal digits of a natural number, most significant first (no leading zeros). */
  function NatToString(n: nat): (r: string)
    ensures |r| >= 1
    ensures forall k :: 0 <= k < |r| ==> '0' <= r[k] <= '9'
    ensures |r| > 1 ==> r[0] != '0'
    decreases n
  {
    if n < 10 then [('0' as int + n) as char]
    else NatToString(n / 10) + [('0' as int + n % 10) as char]
  }

  /** `String(n)` for an integer `n`. */
  function IntToString(n: int): string {
    if n < 0 then "-" + NatToString(-n) else NatToString(n)
  }

  /** The value of a string of decimal digits. */
  function DigitsValue(s: string): nat
    requires forall k :: 0 <= k < |s| ==> '0' <= s[k] <= '9'
  {
    if |s| == 0 then 0
    else 10 * DigitsValue(s[..|s| - 1]) + (s[|s| - 1] as int - '0' as int)
  }

  /** Reading the decimal text back gives the number: the formatting is injective. */
  lemma {:induction false} NatToStringRoundTrip(n: nat)
    ensures DigitsValue(NatToString(n)) == n
    decreases n
  {
    if n >= 10 {
      var s := NatToString(n);
      NatToStringRoundTrip(n / 10);
      assert s[..|s| - 1] == NatToString(n / 10);
    }
  }

  lemma NatToStringInjective(a: nat, b: nat)
    requires NatToString(a) == NatToString(b)
    ensures a == b
  {
    NatToStringRoundTrip(a);
    NatToStringRoundTrip(b);
  }

  /** Distinct integers have distinct decimal texts. */
  lemma IntToStringInjective(a: int, b: int)
    requires IntToString(a) == IntToString(b)
    ensures a == b
  {
    if a < 0 && b < 0 {
      var x, y := NatToString(-a), NatToString(-b);
      assert x == ("-" + x)[1..] && y == ("-" + y)[1..];
      NatToStringInjective(-a, -b);
    } else if a >= 0 && b >= 0 {
      NatToStringInjective(a, b);
    }
  }
}
