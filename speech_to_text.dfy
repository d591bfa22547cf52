/**
 * The transcription cleaner of the speech-to-text converter
 * (ai/speech_to_text.py): collapse whitespace, drop filler words, remove
 * the space before four punctuation marks and strip the ends.
 */
module SpeechToText {
  import opened Wrappers

  /** The characters Python's `str.split()` and `str.strip()` treat as whitespace. */
  predicate IsSpace(c: char)
  {
    c == ' ' || ('\t' <= c <= '\r') || ('\U{1c}' <= c <= '\U{1f}') || c == '\U{85}' || c == '\U{a0}' ||
    c == '\U{1680}' || ('\U{2000}' <= c <= '\U{200a}') || c == '\U{2028}' || c == '\U{2029}' ||
    c == '\U{202f}' || c == '\U{205f}' || c == '\U{3000}'
  }

  predicate NoSpace(w: string)
  {
    forall i :: 0 <= i < |w| ==> !IsSpace(w[i])
  }

  /** A token of `split()`: non-empty and free of whitespace. */
  predicate IsWord(w: string)
  {
    |w| > 0 && NoSpace(w)
  }

  predicate AllWords(ws: seq<string>)
  {
    forall i :: 0 <= i < |ws| ==> IsWord(ws[i])
  }

  /** The filler sounds the cleaner removes. */
  const Fillers: seq<string> := ["أه", "أم", "إيه", "يعني", "أي", "ممم"]

  /** The marks in front of which a space is removed. */
  const Punctuation: set<char> := {',', '.', '؟', '!'}

  // ---------------------------------------------------------------------
  // split() and ' '.join()
  // ---------------------------------------------------------------------

  /** The length of the leading whitespace-free run of `s`. */
  function WordLen(s: string): (n: nat)
    ensures n <= |s| && NoSpace(s[..n])
    ensures n < |s| ==> IsSpace(s[n])
  {
    if s == [] || IsSpace(s[0]) then 0
    else
      var n := 1 + WordLen(s[1..]);
      assert s[..n] == [s[0]] + s[1..][..n - 1];
      n
  }

  /** `s.split()`: the maximal whitespace-free runs of `s`, in order. */
  function Split(s: string): (ws: seq<string>)
    ensures AllWords(ws)
    decreases |s|
  {
    if s == [] then []
    else if IsSpace(s[0]) then Split(s[1..])
    else
      var n := WordLen(s);
      [s[..n]] + Split(s[n..])
  }

  /** `' '.join(ws)`. */
  function Join(ws: seq<string>): string
  {
    if |ws| == 0 then ""
    else if |ws| == 1 then ws[0]
    else ws[0] + " " + Join(ws[1..])
  }

  /** Joining a word list never starts or ends with whitespace and yields "" only for no words. */
  lemma {:induction false} JoinEnds(ws: seq<string>)
    requires AllWords(ws)
    ensures |Join(ws)| == 0 <==> ws == []
    ensures ws != [] ==> Join(ws)[0] == ws[0][0]
    ensures ws != [] ==> !IsSpace(Join(ws)[0]) && !IsSpace(Join(ws)[|Join(ws)| - 1])
  {
    if |ws| > 1 {
      JoinEnds(ws[1..]);
    }
  }

  lemma WordLenOfWord(w: string, rest: string)
    requires IsWord(w) && (rest == [] || IsSpace(rest[0]))
    ensures WordLen(w + rest) == |w|
    decreases |w|
  {
    if |w| > 1 {
      assert (w + rest)[1..] == w[1..] + rest;
      WordLenOfWord(w[1..], rest);
    }
  }

  /** Splitting a joined word list gives the list back. */
  lemma {:induction false} SplitJoin(ws: seq<string>)
    requires AllWords(ws)
    ensures Split(Join(ws)) == ws
  {
    if |ws| == 1 {
      WordLenOfWord(ws[0], "");
      assert ws[0][..|ws[0]|] == ws[0];
      assert (ws[0] + "")[|ws[0]|..] == [];
      assert ws[0] + "" == ws[0];
    } else if |ws| > 1 {
      var w := ws[0];
      var s := Join(ws);
      var tail := " " + Join(ws[1..]);
      assert s == w + tail;
      WordLenOfWord(w, tail);
      assert s[..|w|] == w;
      assert s[|w|..] == tail;
      assert Split(tail) == Split(Join(ws[1..]));
      SplitJoin(ws[1..]);
    }
  }

  // ---------------------------------------------------------------------
  // Filler words
  // ---------------------------------------------------------------------

  /** The words of `ws` that are not fillers, in their order. */
  function DropFillers(ws: seq<string>): (r: seq<string>)
    ensures forall w :: w in r <==> w in ws && w !in Fillers
    ensures AllWords(ws) ==> AllWords(r)
    ensures |r| <= |ws|
  {
    if ws == [] then []
    else (if ws[0] in Fillers then [] else [ws[0]]) + DropFillers(ws[1..])
  }

  /** Dropping fillers works piece by piece, so the kept words keep their relative order. */
  lemma {:induction false} DropFillersAppend(a: seq<string>, b: seq<string>)
    ensures DropFillers(a + b) == DropFillers(a) + DropFillers(b)
  {
    if a == [] {
      assert a + b == b;
    } else {
      assert (a + b)[0] == a[0] && (a + b)[1..] == a[1..] + b;
      DropFillersAppend(a[1..], b);
    }
  }

  lemma {:induction false} DropFillersNone(ws: seq<string>)
    requires forall i :: 0 <= i < |ws| ==> ws[i] !in Fillers
    ensures DropFillers(ws) == ws
  {
    if ws != [] {
      DropFillersNone(ws[1..]);
    }
  }

  /** No filler contains one of the punctuation marks. */
  lemma FillersHaveNoPunctuation(t: string, p: char)
    requires p in Punctuation && p in t
    ensures t !in Fillers
  {
  }

  // ---------------------------------------------------------------------
  // The punctuation fix
  // ---------------------------------------------------------------------

  /** `s.replace(" " + p, p)`, scanning left to right. */
  function FixSpaceBefore(s: string, p: char): string
  {
    if |s| < 2 then s
    else if s[0] == ' ' && s[1] == p then [p] + FixSpaceBefore(s[2..], p)
    else [s[0]] + FixSpaceBefore(s[1..], p)
  }

  /**
   * The same fix on a word list: a word that starts with `p` is glued to the
   * word before it.
   */
  function Merge(ws: seq<string>, p: char): (r: seq<string>)
    requires AllWords(ws)
    ensures AllWords(r)
    ensures |r| <= |ws| && (ws == [] <==> r == [])
    ensures ws != [] ==> r[0][0] == ws[0][0]
    ensures forall i :: 1 <= i < |r| ==> r[i][0] != p
    decreases |ws|
  {
    if |ws| <= 1 then ws
    else if ws[1][0] == p then Merge([ws[0] + ws[1]] + ws[2..], p)
    else [ws[0]] + Merge(ws[1..], p)
  }

  /** The words after the first do not start with any mark in `marks`. */
  predicate NoLeading(ws: seq<string>, marks: set<char>)
    requires AllWords(ws)
  {
    forall i :: 1 <= i < |ws| ==> ws[i][0] !in marks
  }

  /** Gluing keeps every later word's first character among the later words' first characters. */
  lemma {:induction false} MergeKeepsNoLeading(ws: seq<string>, p: char, marks: set<char>)
    requires AllWords(ws) && NoLeading(ws, marks)
    ensures NoLeading(Merge(ws, p), marks + {p})
    decreases |ws|
  {
    if |ws| > 1 {
      if ws[1][0] == p {
        var ws' := [ws[0] + ws[1]] + ws[2..];
        assert forall i :: 1 <= i < |ws'| ==> ws'[i] == ws[i + 1];
        MergeKeepsNoLeading(ws', p, marks);
      } else {
        MergeKeepsNoLeading(ws[1..], p, marks);
      }
    }
  }

  /** Gluing never produces a filler: every glued word contains a punctuation mark. */
  lemma {:induction false} MergeNoFiller(ws: seq<string>, p: char)
    requires AllWords(ws) && p in Punctuation
    requires forall i :: 0 <= i < |ws| ==> ws[i] !in Fillers
    ensures forall i :: 0 <= i < |Merge(ws, p)| ==> Merge(ws, p)[i] !in Fillers
    decreases |ws|
  {
    if |ws| > 1 {
      if ws[1][0] == p {
        var g := ws[0] + ws[1];
        assert g[|ws[0]|] == p;
        FillersHaveNoPunctuation(g, p);
        var ws' := [g] + ws[2..];
        assert forall i :: 1 <= i < |ws'| ==> ws'[i] == ws[i + 1];
        MergeNoFiller(ws', p);
      } else {
        MergeNoFiller(ws[1..], p);
      }
    }
  }

  /** When no later word starts with `p`, gluing changes nothing. */
  lemma {:induction false} MergeNothing(ws: seq<string>, p: char)
    requires AllWords(ws) && NoLeading(ws, {p})
    ensures Merge(ws, p) == ws
    decreases |ws|
  {
    if |ws| > 1 {
      MergeNothing(ws[1..], p);
    }
  }

  lemma {:induction false} FixNoSpace(w: string, s: string, p: char)
    requires NoSpace(w)
    ensures FixSpaceBefore(w + s, p) == w + FixSpaceBefore(s, p)
    decreases |w|
  {
    if |w| > 0 {
      var ws := w + s;
      if |ws| < 2 {
        assert s == [] && ws == w;
        assert w + FixSpaceBefore(s, p) == w;
      } else {
        assert ws[0] == w[0] && ws[1..] == w[1..] + s;
        assert !IsSpace(w[0]);
        assert FixSpaceBefore(ws, p) == [w[0]] + FixSpaceBefore(w[1..] + s, p);
        FixNoSpace(w[1..], s, p);
        assert w == [w[0]] + w[1..];
        assert [w[0]] + (w[1..] + FixSpaceBefore(s, p)) == w + FixSpaceBefore(s, p);
      }
    } else {
      assert w + s == s;
    }
  }

  /** What follows the first word of a joined list. */
  function JoinTail(rs: seq<string>): string
  {
    if rs == [] then "" else " " + Join(rs)
  }

  lemma JoinHead(ws: seq<string>)
    requires |ws| > 0
    ensures Join(ws) == ws[0] + JoinTail(ws[1..])
  {
  }

  /** Removing the space before `p` in a joined text is joining the glued words. */
  lemma {:induction false} FixJoin(ws: seq<string>, p: char)
    requires AllWords(ws) && !IsSpace(p)
    ensures FixSpaceBefore(Join(ws), p) == Join(Merge(ws, p))
    decreases |ws|, 1
  {
    if |ws| == 1 {
      FixNoSpace(ws[0], "", p);
      assert ws[0] + "" == ws[0];
    } else if |ws| > 1 {
      if ws[1][0] == p {
        FixJoinGlued(ws, p);
      } else {
        FixJoinKept(ws, p);
      }
    }
  }

  /** `FixJoin` when the second word starts with `p`: the first two words are glued. */
  lemma {:induction false} FixJoinGlued(ws: seq<string>, p: char)
    requires AllWords(ws) && !IsSpace(p) && |ws| > 1 && ws[1][0] == p
    ensures FixSpaceBefore(Join(ws), p) == Join(Merge(ws, p))
    decreases |ws|, 0
  {
    var w0, w1 := ws[0], ws[1];
    JoinHead(ws[1..]);
    assert ws[1..][1..] == ws[2..];
    var t := JoinTail(ws[2..]);
    assert Join(ws) == w0 + (" " + (w1 + t));
    GlueStep(w0, w1, t, p);
    var ws' := [w0 + w1] + ws[2..];
    assert ws'[1..] == ws[2..];
    JoinHead(ws');
    FixNoSpace(w0 + w1, t, p);
    FixJoin(ws', p);
  }

  /** Fixing the space between a word and one that starts with `p` glues the two. */
  lemma GlueStep(w0: string, w1: string, t: string, p: char)
    requires NoSpace(w0) && NoSpace(w1) && |w1| > 0 && w1[0] == p
    ensures FixSpaceBefore(w0 + (" " + (w1 + t)), p) == (w0 + w1) + FixSpaceBefore(t, p)
  {
    var j1 := w1 + t;
    FixNoSpace(w0, " " + j1, p);
    assert (" " + j1)[2..] == w1[1..] + t;
    FixNoSpace(w1[1..], t, p);
    assert FixSpaceBefore(" " + j1, p) == [p] + FixSpaceBefore(w1[1..] + t, p);
    assert w1 == [p] + w1[1..];
    assert w0 + ([p] + (w1[1..] + FixSpaceBefore(t, p))) == (w0 + w1) + FixSpaceBefore(t, p);
  }

  /** `FixJoin` when the second word does not start with `p`: the first word stays apart. */
  lemma {:induction false} FixJoinKept(ws: seq<string>, p: char)
    requires AllWords(ws) && !IsSpace(p) && |ws| > 1 && ws[1][0] != p
    ensures FixSpaceBefore(Join(ws), p) == Join(Merge(ws, p))
    decreases |ws|, 0
  {
    var w0 := ws[0];
    var j1 := Join(ws[1..]);
    JoinHead(ws[1..]);
    assert Join(ws) == w0 + (" " + j1);
    FixNoSpace(w0, " " + j1, p);
    assert (" " + j1)[1] == ws[1][0];
    assert (" " + j1)[1..] == j1;
    assert FixSpaceBefore(" " + j1, p) == " " + FixSpaceBefore(j1, p);
    FixJoin(ws[1..], p);
    var m := Merge(ws[1..], p);
    assert Merge(ws, p) == [w0] + m;
    assert ([w0] + m)[1..] == m;
    JoinHead([w0] + m);
  }

  // ---------------------------------------------------------------------
  // strip() and the cleaner
  // ---------------------------------------------------------------------

  /** `s.strip()`: `s` without its leading and trailing whitespace. */
  function Strip(s: string): (r: string)
    ensures |r| <= |s|
    ensures r == [] || (!IsSpace(r[0]) && !IsSpace(r[|r| - 1]))
    ensures (forall i :: 0 <= i < |s| ==> !IsSpace(s[i])) ==> r == s
    decreases |s|
  {
    if s == [] then s
    else if IsSpace(s[0]) then Strip(s[1..])
    else if IsSpace(s[|s| - 1]) then Strip(s[..|s| - 1])
    else s
  }

  /**
   * `_clean_transcription`: nothing or an empty text gives ""; otherwise the
   * whitespace is collapsed, fillers dropped, the space before `,` `.` `؟` `!`
   * removed and the ends stripped.
   */
  function Clean(text: Option<string>): (r: string)
    ensures text.None? || text.value == "" ==> r == ""
    ensures r == [] || (!IsSpace(r[0]) && !IsSpace(r[|r| - 1]))
  {
    if text.None? || text.value == "" then ""
    else
      var cleaned := Join(Split(text.value));
      var kept := Join(DropFillers(Split(cleaned)));
      var fixed := FixSpaceBefore(FixSpaceBefore(kept, ','), '.');
      Strip(FixSpaceBefore(FixSpaceBefore(fixed, '؟'), '!'))
  }

  /** The words of the result: the kept words with every word that starts with a mark glued on. */
  function CleanWords(text: Option<string>): (r: seq<string>)
    ensures AllWords(r)
  {
    if text.None? || text.value == "" then []
    else Merge(Merge(Merge(Merge(DropFillers(Split(text.value)), ','), '.'), '؟'), '!')
  }

  lemma {:induction false} StripJoin(ws: seq<string>)
    requires AllWords(ws)
    ensures Strip(Join(ws)) == Join(ws)
  {
    JoinEnds(ws);
  }

  /** The cleaned text is exactly its words joined by single spaces. */
  lemma {:induction false} CleanIsJoin(text: Option<string>)
    ensures Clean(text) == Join(CleanWords(text))
  {
    if !(text.None? || text.value == "") {
      var ws := Split(text.value);
      SplitJoin(ws);
      var k := DropFillers(ws);
      FixJoin(k, ',');
      var m1 := Merge(k, ',');
      FixJoin(m1, '.');
      var m2 := Merge(m1, '.');
      FixJoin(m2, '؟');
      var m3 := Merge(m2, '؟');
      FixJoin(m3, '!');
      StripJoin(Merge(m3, '!'));
    }
  }

  /**
   * A space in a joined word list sits between two words: it is a plain
   * space, and it is followed by a later word's first character.
   */
  lemma {:induction false} JoinSpaces(ws: seq<string>, marks: set<char>)
    requires AllWords(ws) && NoLeading(ws, marks)
    ensures forall i :: 0 <= i < |Join(ws)| && IsSpace(Join(ws)[i]) ==>
      Join(ws)[i] == ' ' && 0 < i < |Join(ws)| - 1 && !IsSpace(Join(ws)[i - 1]) &&
      !IsSpace(Join(ws)[i + 1]) && Join(ws)[i + 1] !in marks
  {
    if |ws| == 1 {
    } else if |ws| > 1 {
      var rest := Join(ws[1..]);
      JoinSpaces(ws[1..], marks);
      JoinEnds(ws[1..]);
      var s := Join(ws);
      var n := |ws[0]|;
      assert s == ws[0] + " " + rest;
      forall i | 0 <= i < |s| && IsSpace(s[i])
        ensures s[i] == ' ' && 0 < i < |s| - 1 && !IsSpace(s[i - 1]) && !IsSpace(s[i + 1]) && s[i + 1] !in marks
      {
        if i == n {
          assert s[i + 1] == rest[0] == ws[1][0];
          assert s[i - 1] == ws[0][n - 1];
        } else if i > n {
          assert s[i] == rest[i - n - 1];
          if i - n - 1 > 0 {
            assert s[i - 1] == rest[i - n - 2];
          }
          assert s[i + 1] == rest[i - n];
        }
      }
    }
  }


  /** The words of the result are no fillers, and none after the first starts with a mark. */
  lemma {:induction false} CleanWordsShape(text: Option<string>)
    ensures NoLeading(CleanWords(text), Punctuation)
    ensures forall i :: 0 <= i < |CleanWords(text)| ==> CleanWords(text)[i] !in Fillers
  {
    if !(text.None? || text.value == "") {
      var k := DropFillers(Split(text.value));
      var m1 := Merge(k, ',');
      var m2 := Merge(m1, '.');
      var m3 := Merge(m2, '؟');
      MergeKeepsNoLeading(k, ',', {});
      MergeKeepsNoLeading(m1, '.', {','});
      MergeKeepsNoLeading(m2, '؟', {',', '.'});
      MergeKeepsNoLeading(m3, '!', {',', '.', '؟'});
      assert {',', '.', '؟'} + {'!'} == Punctuation;
      assert forall i :: 0 <= i < |k| ==> k[i] in k;
      MergeNoFiller(k, ',');
      MergeNoFiller(m1, '.');
      MergeNoFiller(m2, '؟');
      MergeNoFiller(m3, '!');
    }
  }

  /**
   * What the cleaner promises: its result splits into exactly its words,
   * none of which is a filler; it has no leading or trailing whitespace, its
   * only whitespace is single plain spaces between words, and no space stands
   * before `,` `.` `؟` or `!`. Nothing or an empty text gives "".
   */
  lemma {:induction false} CleanProperties(text: Option<string>)
    ensures text.None? || text == Some("") ==> Clean(text) == ""
    ensures Split(Clean(text)) == CleanWords(text)
    ensures forall i :: 0 <= i < |CleanWords(text)| ==> CleanWords(text)[i] !in Fillers
    ensures var s := Clean(text);
      s != [] ==> !IsSpace(s[0]) && !IsSpace(s[|s| - 1])
    ensures var s := Clean(text);
      forall i :: 0 <= i < |s| && IsSpace(s[i]) ==>
        s[i] == ' ' && 0 < i < |s| - 1 && !IsSpace(s[i - 1]) && !IsSpace(s[i + 1]) && s[i + 1] !in Punctuation
  {
    CleanIsJoin(text);
    var ws := CleanWords(text);
    SplitJoin(ws);
    JoinEnds(ws);
    CleanWordsShape(text);
    JoinSpaces(ws, Punctuation);
  }

  /** With no filler and no later word starting with a mark, the words survive cleaning as they are. */
  lemma {:induction false} CleanWordsOfClean(ws: seq<string>)
    requires AllWords(ws) && ws != [] && NoLeading(ws, Punctuation)
    requires forall i :: 0 <= i < |ws| ==> ws[i] !in Fillers
    ensures CleanWords(Some(Join(ws))) == ws
  {
    JoinEnds(ws);
    SplitJoin(ws);
    DropFillersNone(ws);
    MergeNothing(ws, ',');
    MergeNothing(ws, '.');
    MergeNothing(ws, '؟');
    MergeNothing(ws, '!');
  }

  /** Cleaning a cleaned text changes nothing. */
  lemma {:induction false} CleanIdempotent(text: Option<string>)
    ensures Clean(Some(Clean(text))) == Clean(text)
  {
    CleanIsJoin(text);
    var ws := CleanWords(text);
    var s := Clean(text);
    assert s == Join(ws);
    if ws != [] {
      CleanWordsShape(text);
      CleanWordsOfClean(ws);
      CleanIsJoin(Some(s));
    }
  }

  /**
   * For a text none of whose words starts with a punctuation mark, the result
   * is the text's non-filler words, in their original order, joined by
   * single spaces.
   */
  lemma {:induction false} CleanKeepsOrder(text: string)
    requires text != ""
    requires forall w :: w in Split(text) ==> w[0] !in Punctuation
    ensures Clean(Some(text)) == Join(DropFillers(Split(text)))
  {
    CleanIsJoin(Some(text));
    var k := DropFillers(Split(text));
    assert forall i :: 0 <= i < |k| ==> k[i] in k;
    assert NoLeading(k, Punctuation);
    MergeNothing(k, ',');
    MergeNothing(k, '.');
    MergeNothing(k, '؟');
    MergeNothing(k, '!');
  }
}
