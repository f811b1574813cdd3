/**
  The Python `str` operations the extractor relies on, on `seq<char>`:
  `isspace`, ASCII upper-casing, substring containment, `split('\n')`,
  `'\n'.join`, `split()` and `strip()`.
 */
module Text {

  /** Python's `str.isspace`: the characters `strip()` and `split()` discard. */
  predicate IsSpace(c: char)
  {
    || c == ' '
    || ('\t' <= c <= '\r')
    || ('\U{001C}' <= c <= '\U{001F}')
    || c == '\U{0085}' || c == '\U{00A0}' || c == '\U{1680}'
    || ('\U{2000}' <= c <= '\U{200A}')
    || c == '\U{2028}' || c == '\U{2029}' || c == '\U{202F}'
    || c == '\U{205F}' || c == '\U{3000}'
  }

  predicate IsDigit(c: char)
  {
    '0' <= c <= '9'
  }

  predicate NoSpace(s: string)
  {
    forall k :: 0 <= k < |s| ==> !IsSpace(s[k])
  }

  /** Upper-casing of one character; only ASCII letters change. */
  function Upper(c: char): char
  {
    if 'a' <= c <= 'z' then (c as int - 32) as char else c
  }

  /** Python's `s.upper()` on ASCII letters: no lower-case letter is left, nothing else changes. */
  function UpperStr(s: string): (u: string)
    ensures |u| == |s|
    ensures forall k :: 0 <= k < |u| ==> !('a' <= u[k] <= 'z')
    ensures forall k :: 0 <= k < |s| && !('a' <= s[k] <= 'z') ==> u[k] == s[k]
    ensures forall k :: 0 <= k < |s| && 'a' <= s[k] <= 'z' ==> u[k] as int == s[k] as int - 32
  {
    seq(|s|, k requires 0 <= k < |s| => Upper(s[k]))
  }

  /** Upper-casing an upper-cased text changes nothing. */
  lemma UpperStrIdempotent(s: string)
    ensures UpperStr(UpperStr(s)) == UpperStr(s)
  {
    var u := UpperStr(s);
    forall k | 0 <= k < |u|
      ensures UpperStr(u)[k] == u[k]
    {
      assert !('a' <= u[k] <= 'z');
    }
  }

  lemma UpperStrAppend(a: string, b: string)
    ensures UpperStr(a + b) == UpperStr(a) + UpperStr(b)
  {
  }

  /** Upper-casing never produces a character the input did not already have outside `a`..`z`. */
  lemma UpperKeepsNonLetter(s: string, c: char)
    requires !('A' <= c <= 'Z') && c !in s
    ensures c !in UpperStr(s)
  {
  }

  /** `t` occurs in `s` starting at index `i`. */
  predicate OccursAt(s: string, t: string, i: int)
  {
    0 <= i && i + |t| <= |s| && s[i..i + |t|] == t
  }

  /** Python's `t in s` on strings. */
  predicate Contains(s: string, t: string)
  {
    exists i :: 0 <= i <= |s| - |t| && OccursAt(s, t, i)
  }

  /** Every character covered by an occurrence of `t` is a character of `t`. */
  lemma OccurrenceHasChar(s: string, t: string, i: int, j: int)
    requires OccursAt(s, t, i) && i <= j < i + |t|
    ensures s[j] in t
  {
    assert s[j] == s[i..i + |t|][j - i];
  }

  /** An occurrence of a text that does not contain `c` cannot straddle a `c`. */
  lemma OccurrenceAvoidsSeparator(a: string, c: char, b: string, t: string, i: int)
    requires c !in t && OccursAt(a + [c] + b, t, i)
    ensures i + |t| <= |a| || i >= |a| + 1
  {
    if i <= |a| < i + |t| {
      OccurrenceHasChar(a + [c] + b, t, i, |a|);
      assert false;
    }
  }

  lemma SliceLeft(a: string, c: char, b: string, j: int, k: int)
    requires 0 <= j <= k <= |a|
    ensures (a + [c] + b)[j..k] == a[j..k]
  {
    var s := a + [c] + b;
    assert s[..|a|] == a;
    assert s[j..k] == s[..|a|][j..k];
  }

  lemma SliceRight(a: string, c: char, b: string, j: int, k: int)
    requires 0 <= j <= k <= |b|
    ensures (a + [c] + b)[|a| + 1 + j..|a| + 1 + k] == b[j..k]
  {
    var s := a + [c] + b;
    assert s[|a| + 1..] == b;
    assert s[|a| + 1 + j..|a| + 1 + k] == s[|a| + 1..][j..k];
  }

  /**
    An occurrence of a text that does not contain the separator `c` lies
    wholly on one side of it.
   */
  lemma ContainsAcrossSeparator(a: string, c: char, b: string, t: string)
    requires c !in t
    ensures Contains(a + [c] + b, t) <==> Contains(a, t) || Contains(b, t)
  {
    var s := a + [c] + b;
    if Contains(s, t) {
      var i :| 0 <= i <= |s| - |t| && OccursAt(s, t, i);
      OccurrenceAvoidsSeparator(a, c, b, t, i);
      if i + |t| <= |a| {
        SliceLeft(a, c, b, i, i + |t|);
        assert OccursAt(a, t, i);
      } else {
        SliceRight(a, c, b, i - |a| - 1, i - |a| - 1 + |t|);
        assert OccursAt(b, t, i - |a| - 1);
      }
    }
    if Contains(a, t) {
      var i :| 0 <= i <= |a| - |t| && OccursAt(a, t, i);
      SliceLeft(a, c, b, i, i + |t|);
      assert OccursAt(s, t, i);
    }
    if Contains(b, t) {
      var i :| 0 <= i <= |b| - |t| && OccursAt(b, t, i);
      SliceRight(a, c, b, i, i + |t|);
      assert OccursAt(s, t, |a| + 1 + i);
    }
  }

  /** Python's `sep.join(parts)`. */
  function Join(parts: seq<string>, sep: string): string
  {
    if |parts| == 0 then ""
    else if |parts| == 1 then parts[0]
    else parts[0] + sep + Join(parts[1..], sep)
  }

  /**
    Python's `s.split(sep)` for a one-character separator: the pieces between
    separators, empty pieces included; joining them back gives `s`.
   */
  function Split(s: string, sep: char): (parts: seq<string>)
    ensures |parts| >= 1
    ensures forall i :: 0 <= i < |parts| ==> sep !in parts[i]
    ensures Join(parts, [sep]) == s
    decreases |s|
  {
    if |s| == 0 then [""]
    else
      var rest := Split(s[1..], sep);
      if s[0] == sep then
        assert s == [sep] + s[1..];
        [""] + rest
      else
        var parts := [[s[0]] + rest[0]] + rest[1..];
        assert parts[1..] == rest[1..];
        assert s == [s[0]] + s[1..];
        parts
  }

  /** Splitting at a separator that the first piece does not contain peels that piece off. */
  lemma {:induction false} SplitPeel(a: string, sep: char, b: string)
    requires sep !in a
    ensures Split(a + [sep] + b, sep) == [a] + Split(b, sep)
    decreases |a|
  {
    if |a| == 0 {
      assert a + [sep] + b == [sep] + b;
      assert (a + [sep] + b)[1..] == b;
    } else {
      assert (a + [sep] + b)[1..] == a[1..] + [sep] + b;
      SplitPeel(a[1..], sep, b);
      assert [a[0]] + a[1..] == a;
    }
  }

  /** `split` undoes `join` when no piece contains the separator. */
  lemma {:induction false} SplitJoin(parts: seq<string>, sep: char)
    requires |parts| >= 1
    requires forall i :: 0 <= i < |parts| ==> sep !in parts[i]
    ensures Split(Join(parts, [sep]), sep) == parts
    decreases |parts|
  {
    if |parts| == 1 {
      SplitNoSeparator(parts[0], sep);
    } else {
      SplitJoin(parts[1..], sep);
      SplitPeel(parts[0], sep, Join(parts[1..], [sep]));
      assert [parts[0]] + parts[1..] == parts;
    }
  }

  lemma {:induction false} SplitNoSeparator(s: string, sep: char)
    requires sep !in s
    ensures Split(s, sep) == [s]
    decreases |s|
  {
    if |s| > 0 {
      SplitNoSeparator(s[1..], sep);
      assert [s[0]] + s[1..] == s;
    }
  }

  /**
    An upper-cased text that does not contain the separator occurs in the
    upper-cased join of some pieces exactly when it occurs in one of them.
   */
  lemma {:induction false} ContainsInUpperJoin(parts: seq<string>, sep: char, t: string)
    requires |parts| >= 1
    requires sep !in t && !('A' <= sep <= 'Z') && !('a' <= sep <= 'z')
    ensures Contains(UpperStr(Join(parts, [sep])), t)
        <==> exists i :: 0 <= i < |parts| && Contains(UpperStr(parts[i]), t)
    decreases |parts|
  {
    if |parts| > 1 {
      var rest := Join(parts[1..], [sep]);
      UpperStrAppend(parts[0] + [sep], rest);
      UpperStrAppend(parts[0], [sep]);
      assert UpperStr([sep]) == [sep];
      ContainsAcrossSeparator(UpperStr(parts[0]), sep, UpperStr(rest), t);
      ContainsInUpperJoin(parts[1..], sep, t);
      if Contains(UpperStr(rest), t) {
        var i :| 0 <= i < |parts[1..]| && Contains(UpperStr(parts[1..][i]), t);
        assert parts[1..][i] == parts[i + 1];
      }
      if exists i :: 0 <= i < |parts| && Contains(UpperStr(parts[i]), t) {
        var i :| 0 <= i < |parts| && Contains(UpperStr(parts[i]), t);
        if i > 0 {
          assert parts[1..][i - 1] == parts[i];
        }
      }
    }
  }

  /** The characters of `s` that are not whitespace, in order. */
  function NonSpace(s: string): (r: string)
    ensures NoSpace(r)
  {
    if |s| == 0 then ""
    else if IsSpace(s[0]) then NonSpace(s[1..])
    else [s[0]] + NonSpace(s[1..])
  }

  lemma {:induction false} NonSpaceMember(s: string, c: char)
    ensures c in NonSpace(s) <==> c in s && !IsSpace(c)
    decreases |s|
  {
    if |s| > 0 {
      NonSpaceMember(s[1..], c);
      assert s == [s[0]] + s[1..];
    }
  }

  lemma {:induction false} NonSpaceAppend(a: string, b: string)
    ensures NonSpace(a + b) == NonSpace(a) + NonSpace(b)
    decreases |a|
  {
    if |a| > 0 {
      assert (a + b)[1..] == a[1..] + b;
      NonSpaceAppend(a[1..], b);
    } else {
      assert a + b == b;
    }
  }

  lemma {:induction false} NonSpaceOfWord(w: string)
    requires NoSpace(w)
    ensures NonSpace(w) == w
    decreases |w|
  {
    if |w| > 0 {
      NonSpaceOfWord(w[1..]);
      assert [w[0]] + w[1..] == w;
    }
  }

  function Concat(ws: seq<string>): string
  {
    if |ws| == 0 then "" else ws[0] + Concat(ws[1..])
  }

  /** Length of the run of non-whitespace characters that starts `s`. */
  function WordLength(s: string): (n: nat)
    requires |s| > 0 && !IsSpace(s[0])
    ensures 0 < n <= |s|
    ensures NoSpace(s[..n])
    ensures n == |s| || IsSpace(s[n])
    decreases |s|
  {
    if |s| == 1 || IsSpace(s[1]) then 1
    else
      var n := 1 + WordLength(s[1..]);
      assert forall k :: 1 <= k < n ==> s[..n][k] == s[1..][..n - 1][k - 1];
      n
  }

  /**
    Python's `s.split()` with no argument: the maximal runs of
    non-whitespace characters. The words are non-empty, contain no
    whitespace, and together hold every non-whitespace character of `s`
    in order.
   */
  function Words(s: string): (ws: seq<string>)
    ensures forall i :: 0 <= i < |ws| ==> |ws[i]| > 0 && NoSpace(ws[i])
    ensures Concat(ws) == NonSpace(s)
    decreases |s|
  {
    if |s| == 0 then []
    else if IsSpace(s[0]) then Words(s[1..])
    else
      var n := WordLength(s);
      var rest := Words(s[n..]);
      assert s == s[..n] + s[n..];
      NonSpaceAppend(s[..n], s[n..]);
      NonSpaceOfWord(s[..n]);
      assert ([s[..n]] + rest)[1..] == rest;
      [s[..n]] + rest
  }

  /** A text made of whitespace only. */
  predicate Blank(s: string)
  {
    forall k :: 0 <= k < |s| ==> IsSpace(s[k])
  }

  /** `gaps[0] + ws[0] + gaps[1] + ... + ws[n - 1] + gaps[n]`. */
  function Interleave(gaps: seq<string>, ws: seq<string>): string
    requires |gaps| == |ws| + 1
    decreases |ws|
  {
    if |ws| == 0 then gaps[0] else gaps[0] + ws[0] + Interleave(gaps[1..], ws[1..])
  }

  /**
    How `split()` sees a text: words that are non-empty and hold no
    whitespace, separated by whitespace runs that are non-empty between two
    words and possibly empty at either end.
   */
  predicate IsWordLayout(gaps: seq<string>, ws: seq<string>)
  {
    && |gaps| == |ws| + 1
    && (forall k :: 0 <= k < |gaps| ==> Blank(gaps[k]))
    && (forall k :: 0 < k < |ws| ==> |gaps[k]| > 0)
    && (forall k :: 0 <= k < |ws| ==> |ws[k]| > 0 && NoSpace(ws[k]))
  }

  /** Leading whitespace does not change the words. */
  lemma {:induction false} WordsSkipBlank(g: string, t: string)
    requires Blank(g)
    ensures Words(g + t) == Words(t)
    decreases |g|
  {
    if |g| == 0 {
      assert g + t == t;
    } else {
      assert (g + t)[0] == g[0];
      assert (g + t)[1..] == g[1..] + t;
      assert Blank(g[1..]) by {
        forall k | 0 <= k < |g[1..]|
          ensures IsSpace(g[1..][k])
        {
          assert g[1..][k] == g[k + 1];
        }
      }
      WordsSkipBlank(g[1..], t);
    }
  }

  /** A word followed by whitespace or by nothing is a whole run. */
  lemma {:induction false} WordLengthOf(w: string, t: string)
    requires |w| > 0 && NoSpace(w) && (t == [] || IsSpace(t[0]))
    ensures WordLength(w + t) == |w|
    decreases |w|
  {
    var s := w + t;
    assert s[0] == w[0];
    if |w| == 1 {
      assert |s| == 1 || s[1] == t[0];
    } else {
      assert s[1] == w[1];
      assert s[1..] == w[1..] + t;
      WordLengthOf(w[1..], t);
    }
  }

  /** A word in front of whitespace or of nothing is the first word. */
  lemma WordsPeel(w: string, t: string)
    requires |w| > 0 && NoSpace(w) && (t == [] || IsSpace(t[0]))
    ensures Words(w + t) == [w] + Words(t)
  {
    var s := w + t;
    WordLengthOf(w, t);
    assert s[0] == w[0];
    assert s[..|w|] == w;
    assert s[|w|..] == t;
  }

  /** An interleaving with an empty first gap starts with the first word's first character. */
  lemma InterleaveHead(gaps: seq<string>, ws: seq<string>)
    requires IsWordLayout(gaps, ws)
    ensures |ws| > 0 && |gaps[0]| == 0 ==>
      |Interleave(gaps, ws)| > 0 && !IsSpace(Interleave(gaps, ws)[0])
  {
    if |ws| > 0 && |gaps[0]| == 0 {
      var rest := Interleave(gaps[1..], ws[1..]);
      assert Interleave(gaps, ws) == ws[0] + rest;
      assert Interleave(gaps, ws)[0] == ws[0][0];
    }
  }

  /** The tail of a layout is a layout. */
  lemma LayoutTail(gaps: seq<string>, ws: seq<string>)
    requires IsWordLayout(gaps, ws) && |ws| > 0
    ensures IsWordLayout(gaps[1..], ws[1..])
  {
    forall k | 0 < k < |ws[1..]|
      ensures |gaps[1..][k]| > 0
    {
      assert gaps[1..][k] == gaps[k + 1];
    }
  }

  /**
    `split()` gives back the words of any layout: the words are exactly the
    maximal whitespace-free runs, whatever whitespace surrounds them.
   */
  lemma {:induction false} WordsOfLayout(gaps: seq<string>, ws: seq<string>)
    requires IsWordLayout(gaps, ws)
    ensures Words(Interleave(gaps, ws)) == ws
    decreases |ws|
  {
    if |ws| == 0 {
      WordsSkipBlank(gaps[0], "");
      assert gaps[0] + "" == gaps[0];
    } else {
      LayoutTail(gaps, ws);
      WordsOfLayout(gaps[1..], ws[1..]);
      WordsOfLayoutStep(gaps, ws);
    }
  }

  /** After the first word of a layout comes whitespace or nothing. */
  lemma AfterFirstWord(gaps: seq<string>, ws: seq<string>)
    requires IsWordLayout(gaps, ws) && |ws| > 0
    ensures Interleave(gaps[1..], ws[1..]) == []
         || IsSpace(Interleave(gaps[1..], ws[1..])[0])
  {
    var t := Interleave(gaps[1..], ws[1..]);
    if |ws| > 1 {
      assert t == gaps[1] + ws[1] + Interleave(gaps[2..], ws[2..]);
      assert |gaps[1]| > 0 && Blank(gaps[1]);
      assert t[0] == gaps[1][0];
    } else {
      assert t == gaps[1];
      assert Blank(gaps[1]);
    }
  }

  /** The first gap and the first word of a layout come off the front of its words. */
  lemma WordsOfLayoutStep(gaps: seq<string>, ws: seq<string>)
    requires IsWordLayout(gaps, ws) && |ws| > 0
    requires Words(Interleave(gaps[1..], ws[1..])) == ws[1..]
    ensures Words(Interleave(gaps, ws)) == ws
  {
    var t := Interleave(gaps[1..], ws[1..]);
    AfterFirstWord(gaps, ws);
    assert Interleave(gaps, ws) == gaps[0] + (ws[0] + t);
    PeelGapWord(gaps[0], ws[0], t);
    assert [ws[0]] + ws[1..] == ws;
  }

  /** Whitespace, then a word, then whitespace or nothing: the word is the first of the words. */
  lemma PeelGapWord(g: string, w: string, t: string)
    requires Blank(g) && |w| > 0 && NoSpace(w) && (t == [] || IsSpace(t[0]))
    ensures Words(g + (w + t)) == [w] + Words(t)
  {
    WordsSkipBlank(g, w + t);
    WordsPeel(w, t);
  }

  /** Prefixing the first gap prefixes the whole interleaving. */
  lemma InterleaveFirstGap(p: string, gaps: seq<string>, ws: seq<string>)
    requires |gaps| == |ws| + 1
    ensures Interleave([p + gaps[0]] + gaps[1..], ws) == p + Interleave(gaps, ws)
  {
    var gaps' := [p + gaps[0]] + gaps[1..];
    assert gaps'[1..] == gaps[1..];
    if |ws| > 0 {
      assert p + gaps[0] + ws[0] + Interleave(gaps[1..], ws[1..])
          == p + (gaps[0] + ws[0] + Interleave(gaps[1..], ws[1..]));
    }
  }

  /** Every text is laid out by its `split()` words and the whitespace runs between them. */
  lemma {:induction false} WordsLayout(s: string) returns (gaps: seq<string>)
    ensures IsWordLayout(gaps, Words(s))
    ensures Interleave(gaps, Words(s)) == s
    decreases |s|
  {
    if |s| == 0 {
      gaps := [""];
    } else if IsSpace(s[0]) {
      var g := WordsLayout(s[1..]);
      gaps := LayoutAfterSpace(s, g);
    } else {
      var n := WordLength(s);
      var g := WordsLayout(s[n..]);
      gaps := LayoutAfterWord(s, n, g);
    }
  }

  /** A layout of `s[1..]` extends to `s` when `s` starts with whitespace. */
  lemma LayoutAfterSpace(s: string, g: seq<string>) returns (gaps: seq<string>)
    requires |s| > 0 && IsSpace(s[0])
    requires IsWordLayout(g, Words(s[1..])) && Interleave(g, Words(s[1..])) == s[1..]
    ensures IsWordLayout(gaps, Words(s))
    ensures Interleave(gaps, Words(s)) == s
  {
    var ws := Words(s);
    assert ws == Words(s[1..]);
    gaps := [[s[0]] + g[0]] + g[1..];
    InterleaveFirstGap([s[0]], g, ws);
    assert [s[0]] + s[1..] == s;
    assert Blank([s[0]] + g[0]) by {
      forall k | 0 < k < |[s[0]] + g[0]|
        ensures IsSpace(([s[0]] + g[0])[k])
      {
        assert ([s[0]] + g[0])[k] == g[0][k - 1];
      }
    }
    forall k | 0 < k < |gaps|
      ensures gaps[k] == g[k]
    {
    }
  }

  /** A layout of the text after the first word extends to `s`. */
  lemma LayoutAfterWord(s: string, n: nat, g: seq<string>) returns (gaps: seq<string>)
    requires |s| > 0 && !IsSpace(s[0]) && n == WordLength(s)
    requires IsWordLayout(g, Words(s[n..])) && Interleave(g, Words(s[n..])) == s[n..]
    ensures IsWordLayout(gaps, Words(s))
    ensures Interleave(gaps, Words(s)) == s
  {
    var w, rest := s[..n], Words(s[n..]);
    WordsFirstWord(s, n);
    FirstGapNonEmpty(s, n, g);
    gaps := [""] + g;
    ConsWordLayout(w, g, rest);
    InterleaveConsWord(w, g, rest);
    var ws := Words(s);
    assert ws == [w] + rest;
    assert Interleave(gaps, ws) == w + s[n..];
    assert w + s[n..] == s;
  }

  /** A text that starts with a word has that word first among its words. */
  lemma WordsFirstWord(s: string, n: nat)
    requires |s| > 0 && !IsSpace(s[0]) && n == WordLength(s)
    ensures |s[..n]| > 0 && NoSpace(s[..n])
    ensures Words(s) == [s[..n]] + Words(s[n..])
  {
  }

  lemma InterleaveConsWord(w: string, g: seq<string>, rest: seq<string>)
    requires |g| == |rest| + 1
    ensures Interleave([""] + g, [w] + rest) == w + Interleave(g, rest)
  {
    var gs, ws := [""] + g, [w] + rest;
    assert gs[0] == "" && ws[0] == w;
    assert gs[1..] == g && ws[1..] == rest;
    assert Interleave(gs, ws) == gs[0] + ws[0] + Interleave(g, rest);
    assert gs[0] + ws[0] == w;
  }

  /** Whatever follows a whole word starts with whitespace, so its layout's first gap is not empty. */
  lemma FirstGapNonEmpty(s: string, n: nat, g: seq<string>)
    requires |s| > 0 && !IsSpace(s[0]) && n == WordLength(s)
    requires IsWordLayout(g, Words(s[n..])) && Interleave(g, Words(s[n..])) == s[n..]
    ensures |Words(s[n..])| > 0 ==> |g[0]| > 0
  {
    var rest := Words(s[n..]);
    InterleaveHead(g, rest);
    if |rest| > 0 {
      assert |s[n..]| > 0;
      assert IsSpace(s[n..][0]);
    }
  }

  /** A word in front of a layout whose first gap is non-empty (or which has no words) makes a layout. */
  lemma ConsWordLayout(w: string, g: seq<string>, rest: seq<string>)
    requires |w| > 0 && NoSpace(w)
    requires IsWordLayout(g, rest) && (|rest| > 0 ==> |g[0]| > 0)
    ensures IsWordLayout([""] + g, [w] + rest)
  {
    var gaps, ws := [""] + g, [w] + rest;
    forall k | 0 < k < |ws|
      ensures |gaps[k]| > 0
    {
      assert gaps[k] == g[k - 1];
    }
    forall k | 0 <= k < |gaps|
      ensures Blank(gaps[k])
    {
      if k > 0 {
        assert gaps[k] == g[k - 1];
      }
    }
    forall k | 0 <= k < |ws|
      ensures |ws[k]| > 0 && NoSpace(ws[k])
    {
      if k > 0 {
        assert ws[k] == rest[k - 1];
      }
    }
  }

  /** Number of whitespace characters at the start of `s`. */
  function LeadingBlank(s: string): (n: nat)
    ensures n <= |s|
    ensures forall k :: 0 <= k < n ==> IsSpace(s[k])
    ensures n == |s| || !IsSpace(s[n])
    decreases |s|
  {
    if |s| > 0 && IsSpace(s[0]) then
      var n := 1 + LeadingBlank(s[1..]);
      assert forall k :: 1 <= k < n ==> s[k] == s[1..][k - 1];
      n
    else 0
  }

  /** Where the whitespace at the end of `s` begins. */
  function TrailingBlank(s: string): (n: nat)
    ensures n <= |s|
    ensures forall k :: n <= k < |s| ==> IsSpace(s[k])
    ensures n == 0 || !IsSpace(s[n - 1])
    decreases |s|
  {
    if |s| > 0 && IsSpace(s[|s| - 1]) then
      var n := TrailingBlank(s[..|s| - 1]);
      assert forall k :: n <= k < |s| - 1 ==> s[k] == s[..|s| - 1][k];
      n
    else |s|
  }

  lemma {:induction false} NonSpaceOfBlank(s: string)
    requires forall k :: 0 <= k < |s| ==> IsSpace(s[k])
    ensures NonSpace(s) == ""
    decreases |s|
  {
    if |s| > 0 {
      NonSpaceOfBlank(s[1..]);
    }
  }

  lemma NonSpaceDropBlankPrefix(s: string, n: nat)
    requires n <= |s|
    requires forall k :: 0 <= k < n ==> IsSpace(s[k])
    ensures NonSpace(s[n..]) == NonSpace(s)
  {
    assert s == s[..n] + s[n..];
    NonSpaceAppend(s[..n], s[n..]);
    NonSpaceOfBlank(s[..n]);
  }

  lemma NonSpaceDropBlankSuffix(s: string, n: nat)
    requires n <= |s|
    requires forall k :: n <= k < |s| ==> IsSpace(s[k])
    ensures NonSpace(s[..n]) == NonSpace(s)
  {
    assert s == s[..n] + s[n..];
    NonSpaceAppend(s[..n], s[n..]);
    NonSpaceOfBlank(s[n..]);
  }

  /**
    Python's `s.strip()`: the slice of `s` between its leading and its
    trailing whitespace. It neither starts nor ends with whitespace, keeps
    every non-whitespace character of `s` in order, and is `s` itself when
    `s` is already trimmed.
   */
  function Strip(s: string): (r: string)
    ensures r == [] || (!IsSpace(r[0]) && !IsSpace(r[|r| - 1]))
    ensures exists i, j ::
      && 0 <= i <= j <= |s| && r == s[i..j]
      && (forall k :: 0 <= k < i ==> IsSpace(s[k]))
      && (forall k :: j <= k < |s| ==> IsSpace(s[k]))
    ensures NonSpace(r) == NonSpace(s)
    ensures (s == [] || (!IsSpace(s[0]) && !IsSpace(s[|s| - 1]))) ==> r == s
  {
    var i, j := LeadingBlank(s), TrailingBlank(s);
    if j <= i then
      StripAllBlank(s, i, j);
      assert s[i..i] == [];
      []
    else
      StripKeepsNonSpace(s, i, j);
      s[i..j]
  }

  /** When the trailing whitespace starts before the leading whitespace ends, `s` is blank. */
  lemma StripAllBlank(s: string, i: nat, j: nat)
    requires i == LeadingBlank(s) && j == TrailingBlank(s) && j <= i
    ensures NonSpace(s) == []
    ensures s == [] || IsSpace(s[0])
  {
    NonSpaceOfBlank(s);
  }

  lemma StripKeepsNonSpace(s: string, i: nat, j: nat)
    requires i == LeadingBlank(s) && j == TrailingBlank(s) && i < j
    ensures NonSpace(s[i..j]) == NonSpace(s)
    ensures !IsSpace(s[i..j][0]) && !IsSpace(s[i..j][j - i - 1])
  {
    NonSpaceDropBlankPrefix(s, i);
    NonSpaceDropBlankSuffix(s[i..], j - i);
    assert s[i..][..j - i] == s[i..j];
  }
}
