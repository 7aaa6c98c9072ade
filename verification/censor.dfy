/** The profanity censors of the comment controllers: `censorProfanity`
    (src/apps/controllers/apis/comment.js), applied to a comment before it is stored, and
    `displayCensoredContent` (src/apps/controllers/web/comment.js), applied when a comment is
    shown to an administrator. Each takes the words of its list in turn and runs a global,
    case-insensitive replace of the pattern `([\s\W]|^)(word)([\s\W]|$)`. */
module Censor {
  import opened Js

  const API_WORDS: seq<string> := ["đcm", "đm", "cmm", "cc", "shit", "cút", "mm"]
  const WEB_WORDS: seq<string> :=
    ["đcm", "đm", "cmm", "cc", "shit", "cút", "mm", "fuck", "đéo", "lồn", "địt", "chó", "bitch", "damn"]

  /** What a matched word becomes: always two stars (API), or one star per letter (web). */
  datatype Style = TwoStars | StarPerLetter

  function Mask(style: Style, w: string): (m: string)
    ensures style.StarPerLetter? ==> m == Repeat('*', |w|)
  {
    match style
    case TwoStars => "**"
    case StarPerLetter => Repeat('*', |w|)
  }

  /** The comparison the `i` flag makes, on the letters that matter here: ASCII, and the
      accented letters of the word lists. No other character compares equal to a letter of
      either list, so matching against the lists is the same as the regex's. */
  function FoldChar(c: char): char {
    if 'A' <= c <= 'Z' then (c as int + 32) as char
    else if c == 'Đ' then 'đ'
    else if c == 'Ú' then 'ú'
    else if c == 'É' then 'é'
    else if c == 'Ồ' then 'ồ'
    else if c == 'Ị' then 'ị'
    else if c == 'Ó' then 'ó'
    else c
  }

  /** `a` and `b` spell the same text up to case. */
  predicate SameUpToCase(a: string, b: string) {
    |a| == |b| && (a == [] || (FoldChar(a[0]) == FoldChar(b[0]) && SameUpToCase(a[1..], b[1..])))
  }

  lemma {:induction false} SameUpToCaseAt(a: string, b: string, k: nat)
    requires SameUpToCase(a, b) && k < |a|
    ensures FoldChar(a[k]) == FoldChar(b[k])
    decreases k
  {
    if k > 0 {
      SameUpToCaseAt(a[1..], b[1..], k - 1);
    }
  }

  lemma {:induction false} DiffersUpToCase(a: string, b: string, k: nat)
    requires k < |a| && k < |b| && FoldChar(a[k]) != FoldChar(b[k])
    ensures !SameUpToCase(a, b)
    decreases k
  {
    if k > 0 {
      DiffersUpToCase(a[1..], b[1..], k - 1);
    }
  }

  lemma {:induction false} SameText(a: string)
    ensures SameUpToCase(a, a)
    decreases |a|
  {
    if a != [] {
      SameText(a[1..]);
    }
  }

  /** The class `[\s\W]`: every `\s` character is already outside `\w`, so the class is the
      characters outside `[A-Za-z0-9_]`. */
  predicate NonWord(c: char) {
    !IsWordChar(c)
  }

  lemma NonWordIsBoundary(c: char)
    ensures NonWord(c) <==> IsBoundaryChar(c)
  {
    BoundaryIsNonWord(c);
  }

  /** Folding keeps a character on its side of `[\s\W]`. */
  lemma FoldKeepsBoundary(c: char)
    ensures NonWord(FoldChar(c)) <==> NonWord(c)
  {
  }

  /** The text at `q` spells `w`, up to case. */
  predicate WordAt(s: string, w: string, q: nat) {
    q + |w| <= |s| && SameUpToCase(s[q..q + |w|], w)
  }

  /** A whole-word occurrence of `w` at `q`: the start of the text or a `[\s\W]` character on
      its left, the end of the text or such a character on its right. */
  predicate Occurs(s: string, w: string, q: nat) {
    && WordAt(s, w, q)
    && (q == 0 || NonWord(s[q - 1]))
    && (q + |w| == |s| || NonWord(s[q + |w|]))
  }

  /** A match of the pattern: the lengths (0 or 1) of the delimiters it takes on either side
      of the word. */
  datatype Hit = Hit(before: nat, after: nat)

  /** `([\s\W]|$)` at `q`: how much it takes, when it matches. */
  function Delimiter(s: string, q: nat): (d: Option<nat>)
    ensures d.Some? ==> d.value <= 1 && q + d.value <= |s|
    ensures d.Some? <==> q == |s| || (q < |s| && NonWord(s[q]))
  {
    if q < |s| && NonWord(s[q]) then Some(1)
    else if q == |s| then Some(0)
    else None
  }

  /** The pattern tried at `p`, alternatives in order: a delimiter character and then the
      word, else (at the start of the text only) the word itself. */
  function HitAt(s: string, w: string, p: nat): (h: Option<Hit>)
    ensures h.Some? ==> && h.value.before <= 1 && h.value.after <= 1
                        && WordAt(s, w, p + h.value.before)
                        && p + h.value.before + |w| + h.value.after <= |s|
  {
    if p < |s| && NonWord(s[p]) && WordAt(s, w, p + 1) && Delimiter(s, p + 1 + |w|).Some? then
      Some(Hit(1, Delimiter(s, p + 1 + |w|).value))
    else if p == 0 && WordAt(s, w, 0) && Delimiter(s, |w|).Some? then
      Some(Hit(0, Delimiter(s, |w|).value))
    else None
  }

  /** `s.replace(pattern, replacer)` with the `g` flag, from search position `p` on: each match
      becomes its delimiters around `mask`, and the search resumes where the match ended,
      after the right delimiter it took. A mask no longer than the word never lengthens the
      text; one star per letter keeps its length and changes only characters inside whole-word
      occurrences of the word, each into a star. */
  function ReplaceFrom(s: string, w: string, mask: string, p: nat): (r: string)
    requires w != [] && p <= |s|
    ensures |mask| <= |w| ==> |r| <= |s| - p
    ensures mask == Repeat('*', |w|) ==> StarredFrom(s, w, p, r)
    decreases |s| - p
  {
    if p == |s| then []
    else match HitAt(s, w, p)
      case None =>
        var rest := ReplaceFrom(s, w, mask, p + 1);
        KeepStep(s, w, mask, p, rest);
        [s[p]] + rest
      case Some(h) =>
        var q := p + h.before;
        var e := q + |w| + h.after;
        var rest := ReplaceFrom(s, w, mask, e);
        PatternFindsOccurrences(s, w, p);
        MaskStep(s, w, mask, p, q, e, rest);
        s[p..q] + (mask + (s[q + |w|..e] + rest))
  }

  /** `s.replace(pattern, replacer)` over the whole text; a text in which the word does not
      appear, in any case, comes back unchanged. */
  function Replace(s: string, w: string, mask: string): (r: string)
    requires w != []
    ensures |mask| <= |w| ==> |r| <= |s|
    ensures mask == Repeat('*', |w|) ==> StarredFrom(s, w, 0, r)
    ensures Absent(s, w) ==> r == s
  {
    AbsentWordUnchanged(s, w, mask);
    ReplaceFrom(s, w, mask, 0)
  }

  predicate NonEmptyWords(words: seq<string>) {
    forall i :: 0 <= i < |words| ==> words[i] != []
  }

  /** Every word has at least two letters, so two stars never lengthen the text. */
  predicate LongWords(words: seq<string>) {
    forall i :: 0 <= i < |words| ==> |words[i]| >= 2
  }

  /** Every API word is a display word: the display list extends the API list. */
  lemma ListsNonEmpty()
    ensures API_WORDS == WEB_WORDS[..7]
    ensures NonEmptyWords(WEB_WORDS) && NonEmptyWords(API_WORDS)
    ensures LongWords(WEB_WORDS) && LongWords(API_WORDS)
  {
  }

  /** The `for ... of` loop over a word list: one global replace per word, in list order.
      A text without any of the words comes back unchanged; two stars per match never
      lengthen it when every word has two letters or more; one star per letter keeps its
      length and changes characters only into stars. */
  function CensorWords(s: string, words: seq<string>, style: Style): (r: string)
    requires NonEmptyWords(words)
    ensures Clean(s, words) ==> r == s
    ensures style.TwoStars? && LongWords(words) ==> |r| <= |s|
    ensures style.StarPerLetter? ==> StarsOnly(s, r)
    decreases |words|
  {
    if words == [] then s
    else
      var t := Replace(s, words[0], Mask(style, words[0]));
      PassKeepsShape(s, words[0], style);
      assert forall w :: w in words[1..] ==> w in words;
      assert LongWords(words) ==> LongWords(words[1..]) && |words[0]| >= 2;
      var r := CensorWords(t, words[1..], style);
      StarsOnlyTransitive(s, t, r);
      r
  }

  /** `censorProfanity(content)`: the stored comment is never longer than the submitted one,
      and is the submitted one when none of the API words appears in it, in any case. */
  function CensorProfanity(content: string): (r: string)
    ensures |r| <= |content|
    ensures Clean(content, API_WORDS) ==> r == content
  {
    ListsNonEmpty();
    CensorWords(content, API_WORDS, TwoStars)
  }

  /** `displayCensoredContent(content)`: a missing or empty text gives ""; any other keeps its
      length, differs only in characters turned into stars, and is shown unchanged when none
      of the display words appears in it. */
  function DisplayCensored(content: Option<string>): (r: string)
    ensures !Present(content) ==> r == ""
    ensures Present(content) ==> StarsOnly(content.value, r)
    ensures Present(content) && Clean(content.value, WEB_WORDS) ==> r == content.value
  {
    ListsNonEmpty();
    if !Present(content) then "" else CensorWords(content.value, WEB_WORDS, StarPerLetter)
  }

  // ----- The pattern and whole-word occurrences -----

  /** What the pattern finds is a whole-word occurrence; every whole-word occurrence is found
      by a try one character before it, or, at the start of the text, by the try there. */
  lemma PatternFindsOccurrences(s: string, w: string, p: nat)
    ensures HitAt(s, w, p).Some? ==> Occurs(s, w, p + HitAt(s, w, p).value.before)
    ensures p > 0 && Occurs(s, w, p) ==> HitAt(s, w, p - 1) == Some(Hit(1, Delimiter(s, p + |w|).value))
    ensures p == 0 && Occurs(s, w, 0) ==> HitAt(s, w, 0).Some?
  {
    if HitAt(s, w, p).Some? {
      var h := HitAt(s, w, p).value;
      assert Delimiter(s, p + h.before + |w|).Some?;
    }
  }


  // ----- Text without prohibited words -----

  lemma {:induction false} NoHitUnchanged(s: string, w: string, mask: string, p: nat)
    requires w != [] && p <= |s|
    requires forall q :: p <= q < |s| ==> HitAt(s, w, q).None?
    ensures ReplaceFrom(s, w, mask, p) == s[p..]
    decreases |s| - p
  {
    if p < |s| {
      NoHitUnchanged(s, w, mask, p + 1);
      assert s[p..] == [s[p]] + s[p + 1..];
    }
  }

  /** The word appears nowhere in the text, in any case. */
  predicate Absent(s: string, w: string) {
    forall q :: 0 <= q <= |s| ==> !WordAt(s, w, q)
  }

  /** None of the words appears in the text. */
  predicate Clean(s: string, words: seq<string>) {
    forall w :: w in words ==> Absent(s, w)
  }

  /** A text in which the word does not appear comes back unchanged. */
  lemma AbsentWordUnchanged(s: string, w: string, mask: string)
    requires w != []
    ensures Absent(s, w) ==> ReplaceFrom(s, w, mask, 0) == s
  {
    if Absent(s, w) {
      forall q | 0 <= q < |s| ensures HitAt(s, w, q).None? {
        assert !WordAt(s, w, q) && !WordAt(s, w, q + 1);
      }
      NoHitUnchanged(s, w, mask, 0);
    }
  }

  /** Censoring with a list is censoring with a prefix of it, then with the rest. */
  lemma {:induction false} CensorWordsSplit(s: string, words: seq<string>, k: nat, style: Style)
    requires NonEmptyWords(words) && k <= |words|
    ensures CensorWords(s, words, style) == CensorWords(CensorWords(s, words[..k], style), words[k..], style)
    decreases k
  {
    if k > 0 {
      var t := Replace(s, words[0], Mask(style, words[0]));
      var front := words[..k];
      assert front[0] == words[0] && front[1..] == words[1..][..k - 1];
      assert words[1..][k - 1..] == words[k..];
      CensorWordsStep(s, words, style);
      CensorWordsStep(s, front, style);
      CensorWordsSplit(t, words[1..], k - 1, style);
    }
  }

  /** The first pass of the loop, then the rest of the list. */
  lemma CensorWordsStep(s: string, words: seq<string>, style: Style)
    requires NonEmptyWords(words) && words != []
    ensures NonEmptyWords(words[1..])
    ensures CensorWords(s, words, style) == CensorWords(Replace(s, words[0], Mask(style, words[0])), words[1..], style)
  {
    assert forall w :: w in words[1..] ==> w in words;
  }

  // ----- The displayed text keeps its shape -----

  /** A position of the text inside some whole-word occurrence of `w`. */
  predicate Covered(s: string, w: string, j: nat) {
    exists q: nat :: q <= j < q + |w| && Occurs(s, w, q)
  }

  /** A position inside an occurrence is covered. */
  lemma InsideOccurrence(s: string, w: string, q: nat, j: nat)
    requires Occurs(s, w, q) && q <= j < q + |w|
    ensures Covered(s, w, j)
  {
  }

  /** The character at `i` of `r`, standing for position `p + i` of the text after the
      pass: the original one, or a star inside an occurrence. */
  predicate StarredAt(s: string, w: string, p: nat, r: string, i: nat)
    requires i < |r| && p + i < |s|
  {
    r[i] == s[p + i] || (r[i] == '*' && Covered(s, w, p + i))
  }

  /** `r`, the text from `p` on after one pass with one star per letter, has the length of
      that text and differs from it only in stars inside occurrences. */
  predicate StarredFrom(s: string, w: string, p: nat, r: string)
    requires p <= |s|
  {
    && |r| == |s| - p
    && forall i :: 0 <= i < |r| ==> StarredAt(s, w, p, r, i)
  }

  /** Copying the text between `p` and `x` in front of a starred rest keeps it starred. */
  lemma CopyStep(s: string, w: string, p: nat, x: nat, rest: string)
    requires p <= x <= |s| && StarredFrom(s, w, x, rest)
    ensures StarredFrom(s, w, p, s[p..x] + rest)
  {
    forall i | 0 <= i < |s[p..x] + rest| ensures StarredAt(s, w, p, s[p..x] + rest, i) {
      if i < x - p {
        CopyBefore(s, w, p, x, rest, i);
      } else {
        CopyAfter(s, w, p, x, rest, i - (x - p));
      }
    }
  }

  lemma CopyBefore(s: string, w: string, p: nat, x: nat, rest: string, i: nat)
    requires p + i < x <= |s|
    ensures StarredAt(s, w, p, s[p..x] + rest, i)
  {
    assert (s[p..x] + rest)[i] == s[p + i];
  }

  lemma CopyAfter(s: string, w: string, p: nat, x: nat, rest: string, k: nat)
    requires p <= x <= |s| && StarredFrom(s, w, x, rest) && k < |rest|
    ensures StarredAt(s, w, p, s[p..x] + rest, (x - p) + k)
  {
    assert StarredAt(s, w, x, rest, k);
    assert (s[p..x] + rest)[(x - p) + k] == rest[k];
    assert p + ((x - p) + k) == x + k;
  }

  /** Stars for an occurrence in front of a starred rest keep it starred. */
  lemma StarStep(s: string, w: string, q: nat, stars: string, rest: string)
    requires q + |w| <= |s| && Spanned(s, w, q) && AllStars(stars, |w|)
    requires StarredFrom(s, w, q + |w|, rest)
    ensures StarredFrom(s, w, q, stars + rest)
  {
    forall i | 0 <= i < |stars + rest| ensures StarredAt(s, w, q, stars + rest, i) {
      if i < |w| {
        StarInside(s, w, q, stars, rest, i);
      } else {
        StarAfter(s, w, q, stars, rest, i - |w|);
      }
    }
  }

  /** `stars` is `n` stars. */
  predicate AllStars(stars: string, n: nat) {
    |stars| == n && forall i :: 0 <= i < n ==> stars[i] == '*'
  }

  /** Every position of the span of `w` at `q` is covered. */
  predicate Spanned(s: string, w: string, q: nat) {
    forall j :: q <= j < q + |w| ==> Covered(s, w, j)
  }

  lemma OccurrenceSpanned(s: string, w: string, q: nat)
    requires Occurs(s, w, q)
    ensures Spanned(s, w, q)
  {
    forall j | q <= j < q + |w| ensures Covered(s, w, j) {
      InsideOccurrence(s, w, q, j);
    }
  }

  lemma StarInside(s: string, w: string, q: nat, stars: string, rest: string, i: nat)
    requires q + |w| <= |s| && Spanned(s, w, q) && AllStars(stars, |w|) && i < |w|
    ensures StarredAt(s, w, q, stars + rest, i)
  {
    assert (stars + rest)[i] == stars[i] == '*';
    assert Covered(s, w, q + i);
  }

  lemma StarAfter(s: string, w: string, q: nat, stars: string, rest: string, k: nat)
    requires q + |w| <= |s| && |stars| == |w| && StarredFrom(s, w, q + |w|, rest) && k < |rest|
    ensures StarredAt(s, w, q, stars + rest, |w| + k)
  {
    assert StarredAt(s, w, q + |w|, rest, k);
    assert (stars + rest)[|w| + k] == rest[k];
    assert q + (|w| + k) == q + |w| + k;
  }

  /** A match replaced by stars, in front of a starred rest, keeps it starred. */
  lemma MaskStep(s: string, w: string, mask: string, p: nat, q: nat, e: nat, rest: string)
    requires p <= q && q + |w| <= e <= |s| && Occurs(s, w, q)
    ensures mask == Repeat('*', |w|) && StarredFrom(s, w, e, rest) ==>
              StarredFrom(s, w, p, s[p..q] + (mask + (s[q + |w|..e] + rest)))
  {
    if mask == Repeat('*', |w|) && StarredFrom(s, w, e, rest) {
      OccurrenceSpanned(s, w, q);
      RepeatStars(mask, |w|);
      StarsStep(s, w, mask, p, q, e, rest, s[q + |w|..e] + rest);
    }
  }

  lemma RepeatStars(stars: string, n: nat)
    requires stars == Repeat('*', n)
    ensures AllStars(stars, n)
  {
  }

  lemma StarsStep(s: string, w: string, stars: string, p: nat, q: nat, e: nat, rest: string, t: string)
    requires p <= q && q + |w| <= e <= |s| && Spanned(s, w, q) && AllStars(stars, |w|)
    requires StarredFrom(s, w, e, rest) && t == s[q + |w|..e] + rest
    ensures StarredFrom(s, w, p, s[p..q] + (stars + t))
  {
    CopyStep(s, w, q + |w|, e, rest);
    StarStep(s, w, q, stars, t);
    CopyStep(s, w, p, q, stars + t);
  }

  /** A character copied in front of a starred rest keeps it starred. */
  lemma KeepStep(s: string, w: string, mask: string, p: nat, rest: string)
    requires p < |s|
    ensures mask == Repeat('*', |w|) && StarredFrom(s, w, p + 1, rest) ==>
              StarredFrom(s, w, p, [s[p]] + rest)
  {
    if mask == Repeat('*', |w|) && StarredFrom(s, w, p + 1, rest) {
      CopyStep(s, w, p, p + 1, rest);
      assert s[p..p + 1] == [s[p]];
    }
  }

  /** The text has the original's length and differs from it only in stars. */
  predicate StarsOnly(s: string, r: string) {
    |r| == |s| && forall i :: 0 <= i < |r| ==> r[i] == s[i] || r[i] == '*'
  }

  lemma StarredKeepsShape(s: string, w: string, r: string)
    requires StarredFrom(s, w, 0, r)
    ensures StarsOnly(s, r)
  {
    forall i | 0 <= i < |r| ensures r[i] == s[i] || r[i] == '*' {
      assert StarredAt(s, w, 0, r, i);
    }
  }

  /** One pass with one star per letter keeps the text's shape. */
  lemma PassKeepsShape(s: string, w: string, style: Style)
    requires w != []
    ensures style.StarPerLetter? ==> StarsOnly(s, Replace(s, w, Mask(style, w)))
  {
    if style.StarPerLetter? {
      StarredKeepsShape(s, w, Replace(s, w, Mask(style, w)));
    }
  }

  lemma StarsOnlyTransitive(s: string, t: string, r: string)
    ensures StarsOnly(s, t) && StarsOnly(t, r) ==> StarsOnly(s, r)
  {
  }

  // ----- Consumed delimiters -----

  /** The right delimiter of a match is taken by it, so a word that follows after a single
      space is not found: "cc cc" keeps its second "cc", although it is a whole-word
      occurrence. */
  lemma ConsumedDelimiterHidesNext(mask: string)
    ensures Replace("cc cc", "cc", mask) == mask + " cc"
    ensures Occurs("cc cc", "cc", 3)
  {
    var s := "cc cc";
    assert HitAt(s, "cc", 0) == Some(Hit(0, 1)) by {
      assert s[0..2] == "cc";
      SameText("cc");
    }
    forall q | 3 <= q < |s| ensures HitAt(s, "cc", q).None? {
      assert !NonWord(s[q]);
    }
    NoHitUnchanged(s, "cc", mask, 3);
    assert s[3..] == "cc";
    assert s[2..3] == " ";
    assert s[3..5] == "cc";
    SameText("cc");
  }

  /** A word with a letter the text lacks, in any case, is absent from it. */
  lemma LetterMissing(s: string, w: string, k: nat)
    requires k < |w| && forall i :: 0 <= i < |s| ==> FoldChar(s[i]) != FoldChar(w[k])
    ensures Absent(s, w)
  {
    forall q | 0 <= q <= |s| ensures !WordAt(s, w, q) {
      if q + |w| <= |s| {
        DiffersUpToCase(s[q..q + |w|], w, k);
      }
    }
  }

  /** Only the fourth API word appears in "cc cc", so the whole censor keeps the second "cc". */
  lemma ApiCensorKeepsSecond(s: string)
    requires s == "cc cc"
    ensures CensorProfanity(s) == "** cc"
  {
    ListsNonEmpty();
    SkipFirstThree(s);
    CensorTail(s);
  }

  lemma SkipFirstThree(s: string)
    requires s == "cc cc"
    ensures NonEmptyWords(API_WORDS) && NonEmptyWords(API_WORDS[3..])
    ensures CensorWords(s, API_WORDS, TwoStars) == CensorWords(s, API_WORDS[3..], TwoStars)
  {
    ListsNonEmpty();
    CensorWordsSplit(s, API_WORDS, 3, TwoStars);
    CleanFirstThree(s);
  }

  lemma CensorTail(s: string)
    requires s == "cc cc"
    ensures NonEmptyWords(API_WORDS[3..])
    ensures CensorWords(s, API_WORDS[3..], TwoStars) == "** cc"
  {
    ListsNonEmpty();
    var t := "** cc";
    LastThreeAbsent(t);
    assert API_WORDS[3..][1..] == API_WORDS[4..];
    TailAfterCc(s, API_WORDS[3..], TwoStars);
  }

  /** A list that starts with "cc" and whose other words are absent from "** cc" turns
      "cc cc" into "** cc", in either style: both mask "cc" as "**". */
  lemma TailAfterCc(s: string, tail: seq<string>, style: Style)
    requires s == "cc cc" && NonEmptyWords(tail) && tail != [] && tail[0] == "cc"
    requires Clean("** cc", tail[1..])
    ensures CensorWords(s, tail, style) == "** cc"
  {
    CensorWordsStep(s, tail, style);
    var mask := Mask(style, tail[0]);
    assert Replace(s, tail[0], mask) == "** cc" by {
      MaskOfCc(style);
      assert mask == "**";
      ConsumedDelimiterHidesNext(mask);
    }
  }

  /** Both styles mask "cc" as two stars. */
  lemma MaskOfCc(style: Style)
    ensures Mask(style, "cc") == "**"
  {
    if style.StarPerLetter? {
      assert Repeat('*', 2) == "**";
    }
  }

  /** Only the fourth display word appears in "cc cc", so the page shows "** cc": the
      display censor keeps the second "cc" as the API censor does. */
  lemma DisplayKeepsSecond(s: string)
    requires s == "cc cc"
    ensures DisplayCensored(Some(s)) == "** cc"
  {
    ListsNonEmpty();
    DisplaySkipFirstThree(s);
    DisplayTail(s);
  }

  lemma DisplaySkipFirstThree(s: string)
    requires s == "cc cc"
    ensures NonEmptyWords(WEB_WORDS) && NonEmptyWords(WEB_WORDS[3..])
    ensures CensorWords(s, WEB_WORDS, StarPerLetter) == CensorWords(s, WEB_WORDS[3..], StarPerLetter)
  {
    ListsNonEmpty();
    assert Clean(s, WEB_WORDS[..3]) by {
      FirstThreeAbsent(s);
      assert WEB_WORDS[..3] == API_WORDS[..3];
    }
    SkipCleanFront(s, WEB_WORDS, 3, StarPerLetter);
  }

  /** Words absent from the text at the head of the list leave it to the rest. */
  lemma SkipCleanFront(s: string, words: seq<string>, k: nat, style: Style)
    requires NonEmptyWords(words) && k <= |words| && Clean(s, words[..k])
    ensures NonEmptyWords(words[k..])
    ensures CensorWords(s, words, style) == CensorWords(s, words[k..], style)
  {
    assert NonEmptyWords(words[..k]);
    CensorWordsSplit(s, words, k, style);
  }

  lemma DisplayTail(s: string)
    requires s == "cc cc"
    ensures NonEmptyWords(WEB_WORDS[3..])
    ensures CensorWords(s, WEB_WORDS[3..], StarPerLetter) == "** cc"
  {
    ListsNonEmpty();
    var t := "** cc";
    WebTailAbsent(t);
    assert WEB_WORDS[3..][1..] == WEB_WORDS[4..];
    TailAfterCc(s, WEB_WORDS[3..], StarPerLetter);
  }

  /** A text of stars, spaces and the letter c holds none of the API words but "cc". */
  predicate StarsSpacesCs(s: string) {
    forall i :: 0 <= i < |s| ==> s[i] == '*' || s[i] == ' ' || s[i] == 'c'
  }

  lemma FirstThreeAbsent(s: string)
    requires StarsSpacesCs(s)
    ensures Clean(s, API_WORDS[..3])
  {
    assert API_WORDS[..3] == ["đcm", "đm", "cmm"];
    LetterMissing(s, "đcm", 0);
    LetterMissing(s, "đm", 0);
    LetterMissing(s, "cmm", 1);
  }

  lemma LastThreeAbsent(s: string)
    requires StarsSpacesCs(s)
    ensures Clean(s, API_WORDS[4..])
  {
    assert API_WORDS[4..] == ["shit", "cút", "mm"];
    LetterMissing(s, "shit", 0);
    LetterMissing(s, "cút", 1);
    LetterMissing(s, "mm", 0);
  }

  /** The display words after the API list are absent from such a text too. */
  lemma LaterWebAbsent(s: string)
    requires StarsSpacesCs(s)
    ensures Clean(s, WEB_WORDS[7..])
  {
    assert WEB_WORDS[7..] == ["fuck", "đéo", "lồn", "địt", "chó", "bitch", "damn"];
    LetterMissing(s, "fuck", 0);
    LetterMissing(s, "đéo", 0);
    LetterMissing(s, "lồn", 0);
    LetterMissing(s, "địt", 0);
    LetterMissing(s, "chó", 1);
    LetterMissing(s, "bitch", 0);
    LetterMissing(s, "damn", 0);
  }

  lemma WebTailAbsent(s: string)
    requires StarsSpacesCs(s)
    ensures Clean(s, WEB_WORDS[4..])
  {
    ListsNonEmpty();
    LastThreeAbsent(s);
    LaterWebAbsent(s);
    assert WEB_WORDS[4..] == API_WORDS[4..] + WEB_WORDS[7..];
  }

  lemma CleanFirstThree(s: string)
    requires s == "cc cc"
    ensures CensorWords(s, API_WORDS[..3], TwoStars) == s
  {
    FirstThreeAbsent(s);
  }

  // ----- The intended scan -----

  /** The scan the censors evidently mean: every whole-word occurrence, found left to right,
      with the delimiters looked at but not taken (`(?<=[\s\W]|^)word(?=[\s\W]|$)`). */
  function MaskOccurrencesFrom(s: string, w: string, mask: string, p: nat): (r: string)
    requires w != [] && p <= |s|
    ensures |mask| <= |w| ==> |r| <= |s| - p
    ensures |mask| == |w| ==> |r| == |s| - p
    decreases |s| - p
  {
    if p == |s| then []
    else if Occurs(s, w, p) then mask + MaskOccurrencesFrom(s, w, mask, p + |w|)
    else [s[p]] + MaskOccurrencesFrom(s, w, mask, p + 1)
  }

  /** The word lists applied with the intended scan, in list order. */
  function CensorWordsIntended(s: string, words: seq<string>, style: Style): (r: string)
    requires NonEmptyWords(words)
    ensures Clean(s, words) ==> r == s
    ensures style.TwoStars? && LongWords(words) ==> |r| <= |s|
    ensures style.StarPerLetter? ==> |r| == |s|
    decreases |words|
  {
    if words == [] then s
    else
      var t := MaskOccurrencesFrom(s, words[0], Mask(style, words[0]), 0);
      assert forall w :: w in words[1..] ==> w in words;
      assert LongWords(words) ==> LongWords(words[1..]) && |words[0]| >= 2;
      AbsentNotMasked(s, words[0], Mask(style, words[0]));
      CensorWordsIntended(t, words[1..], style)
  }

  /** A text in which the word does not appear comes back unchanged from the intended pass. */
  lemma AbsentNotMasked(s: string, w: string, mask: string)
    requires w != []
    ensures Absent(s, w) ==> MaskOccurrencesFrom(s, w, mask, 0) == s
  {
    if Absent(s, w) {
      assert forall k :: 0 <= k < |s| ==> !Occurs(s, w, k);
      IntendedCopiesGap(s, w, mask, 0, |s|);
    }
  }

  /** `censorProfanity` with the intended scan. */
  function CensorProfanityIntended(content: string): (r: string)
    ensures |r| <= |content|
    ensures Clean(content, API_WORDS) ==> r == content
  {
    ListsNonEmpty();
    CensorWordsIntended(content, API_WORDS, TwoStars)
  }

  /** `displayCensoredContent` with the intended scan. */
  function DisplayCensoredIntended(content: Option<string>): (r: string)
    ensures !Present(content) ==> r == ""
    ensures Present(content) ==> |r| == |content.value|
    ensures Present(content) && Clean(content.value, WEB_WORDS) ==> r == content.value
  {
    ListsNonEmpty();
    if !Present(content) then "" else CensorWordsIntended(content.value, WEB_WORDS, StarPerLetter)
  }

  /** What one pass of the intended scan does, from any position it reaches: the text up to
      the next whole-word occurrence is kept as it is, that occurrence becomes the mask, and
      the scan goes on right after it; a text with no further occurrence is kept as it is.
      For a word meeting the non-overlap condition, the positions the scan steps over inside
      an occurrence start no occurrence, so every whole-word occurrence is replaced. */
  lemma {:induction false} IntendedReplacesNext(s: string, w: string, mask: string, p: nat, q: nat)
    requires w != [] && p <= q <= |s|
    requires forall k :: p <= k < q ==> !Occurs(s, w, k)
    ensures MaskOccurrencesFrom(s, w, mask, p) == s[p..q] + MaskOccurrencesFrom(s, w, mask, q)
    ensures Occurs(s, w, q) ==>
              MaskOccurrencesFrom(s, w, mask, p) == s[p..q] + mask + MaskOccurrencesFrom(s, w, mask, q + |w|)
    ensures Occurs(s, w, q) && Unoverlapping(w) ==> forall k :: q < k < q + |w| ==> !Occurs(s, w, k)
  {
    IntendedCopiesGap(s, w, mask, p, q);
    StepsOverNoOccurrence(s, w, q);
  }

  lemma {:induction false} IntendedCopiesGap(s: string, w: string, mask: string, p: nat, q: nat)
    requires w != [] && p <= q <= |s|
    requires forall k :: p <= k < q ==> !Occurs(s, w, k)
    ensures MaskOccurrencesFrom(s, w, mask, p) == s[p..q] + MaskOccurrencesFrom(s, w, mask, q)
    decreases q - p
  {
    if p < q {
      IntendedCopiesGap(s, w, mask, p + 1, q);
      var rest := MaskOccurrencesFrom(s, w, mask, q);
      assert !Occurs(s, w, p);
      assert MaskOccurrencesFrom(s, w, mask, p) == [s[p]] + MaskOccurrencesFrom(s, w, mask, p + 1);
      assert s[p..q] == [s[p]] + s[p + 1..q];
      assert [s[p]] + (s[p + 1..q] + rest) == ([s[p]] + s[p + 1..q]) + rest;
    }
  }

  lemma StepsOverNoOccurrence(s: string, w: string, q: nat)
    ensures Occurs(s, w, q) && Unoverlapping(w) ==> forall k :: q < k < q + |w| ==> !Occurs(s, w, k)
  {
    if Occurs(s, w, q) && Unoverlapping(w) {
      forall k | q < k < q + |w| ensures !Occurs(s, w, k) {
        NoOverlap(s, w, q, k);
      }
    }
  }

  /** Two whole-word occurrences of `w` cannot overlap: where a letter of `w` could be the left
      delimiter of a second occurrence, the letter after it differs from the first letter. */
  predicate Unoverlapping(w: string) {
    forall k :: 0 < k < |w| ==> !NonWord(w[k - 1]) || FoldChar(w[k]) != FoldChar(w[0])
  }

  lemma NoOverlap(s: string, w: string, m: nat, q: nat)
    requires Unoverlapping(w) && Occurs(s, w, m) && m < q < m + |w|
    ensures !Occurs(s, w, q)
  {
    var k := q - m;
    SameUpToCaseAt(s[m..m + |w|], w, k - 1);
    SameUpToCaseAt(s[m..m + |w|], w, k);
    FoldKeepsBoundary(s[q - 1]);
    FoldKeepsBoundary(w[k - 1]);
    if NonWord(w[k - 1]) && q + |w| <= |s| {
      DiffersUpToCase(s[q..q + |w|], w, 0);
    }
  }

  /** `r`, the text from `p` on after the intended pass with one star per letter, has that
      text's length and a star at every character of every whole-word occurrence in it. */
  predicate AllStarredFrom(s: string, w: string, p: nat, r: string)
    requires p <= |s|
  {
    && |r| == |s| - p
    && forall q, j :: p <= q && q - p <= j < q - p + |w| && q + |w| <= |s| && Occurs(s, w, q) ==> r[j] == '*'
  }

  lemma IntendedMaskStep(s: string, w: string, p: nat, rest: string)
    requires w != [] && Unoverlapping(w) && Occurs(s, w, p) && AllStarredFrom(s, w, p + |w|, rest)
    ensures AllStarredFrom(s, w, p, Repeat('*', |w|) + rest)
  {
    var r := Repeat('*', |w|) + rest;
    forall q, j | p <= q && q - p <= j < q - p + |w| && q + |w| <= |s| && Occurs(s, w, q) ensures r[j] == '*' {
      if j < |w| {
        assert r[j] == Repeat('*', |w|)[j];
      } else {
        if q < p + |w| {
          NoOverlap(s, w, p, q);
        }
        assert r[j] == rest[j - |w|];
      }
    }
  }

  lemma IntendedKeepStep(s: string, w: string, p: nat, rest: string)
    requires p < |s| && !Occurs(s, w, p) && AllStarredFrom(s, w, p + 1, rest)
    ensures AllStarredFrom(s, w, p, [s[p]] + rest)
  {
    var r := [s[p]] + rest;
    forall q, j | p <= q && q - p <= j < q - p + |w| && q + |w| <= |s| && Occurs(s, w, q) ensures r[j] == '*' {
      assert q != p;
      assert r[j] == rest[j - 1];
    }
  }

  /** The intended scan with one star per letter stars every whole-word occurrence of a word
      whose occurrences cannot overlap. */
  lemma {:induction false} IntendedStarsEveryOccurrence(s: string, w: string, p: nat)
    requires w != [] && p <= |s| && Unoverlapping(w)
    ensures AllStarredFrom(s, w, p, MaskOccurrencesFrom(s, w, Repeat('*', |w|), p))
    decreases |s| - p
  {
    if p < |s| {
      if Occurs(s, w, p) {
        IntendedStarsEveryOccurrence(s, w, p + |w|);
        IntendedMaskStep(s, w, p, MaskOccurrencesFrom(s, w, Repeat('*', |w|), p + |w|));
      } else {
        IntendedStarsEveryOccurrence(s, w, p + 1);
        IntendedKeepStep(s, w, p, MaskOccurrencesFrom(s, w, Repeat('*', |w|), p + 1));
      }
    }
  }

  /** The intended scan stars both words of "cc cc". */
  lemma IntendedStarsBoth()
    ensures MaskOccurrencesFrom("cc cc", "cc", "**", 0) == "** **"
  {
    var s := "cc cc";
    SameText("cc");
    assert Occurs(s, "cc", 0) by { assert s[0..2] == "cc"; }
    assert !WordAt(s, "cc", 2) by { DiffersUpToCase(s[2..4], "cc", 0); }
    assert Occurs(s, "cc", 3) by { assert s[3..5] == "cc"; }
  }

  /** Every word of the display list satisfies the non-overlap condition. */
  lemma WebWordsUnoverlapping()
    ensures forall i :: 0 <= i < |WEB_WORDS| ==> Unoverlapping(WEB_WORDS[i])
  {
  }

  /** So does every word of the API list, which the display list extends. */
  lemma ApiWordsUnoverlapping()
    ensures forall i :: 0 <= i < |API_WORDS| ==> Unoverlapping(API_WORDS[i])
  {
    ListsNonEmpty();
    WebWordsUnoverlapping();
    forall i | 0 <= i < |API_WORDS| ensures Unoverlapping(API_WORDS[i]) {
      assert API_WORDS[i] == WEB_WORDS[i];
    }
  }

  /** Censoring with a list is censoring with a prefix of it, then with the rest. */
  lemma {:induction false} IntendedSplit(s: string, words: seq<string>, k: nat, style: Style)
    requires NonEmptyWords(words) && k <= |words|
    ensures CensorWordsIntended(s, words, style)
            == CensorWordsIntended(CensorWordsIntended(s, words[..k], style), words[k..], style)
    decreases k
  {
    if k > 0 {
      var t := MaskOccurrencesFrom(s, words[0], Mask(style, words[0]), 0);
      IntendedSplit(t, words[1..], k - 1, style);
      assert words[1..][..k - 1] == words[..k][1..];
      assert words[1..][k - 1..] == words[k..];
    }
  }

  /** The whole API censor, with the intended scan, stars both words of "cc cc". */
  lemma IntendedApiStarsBoth(s: string)
    requires s == "cc cc"
    ensures CensorProfanityIntended(s) == "** **"
  {
    ListsNonEmpty();
    IntendedSkipFirstThree(s);
    IntendedTail(s);
  }

  lemma IntendedSkipFirstThree(s: string)
    requires s == "cc cc"
    ensures NonEmptyWords(API_WORDS) && NonEmptyWords(API_WORDS[3..])
    ensures CensorWordsIntended(s, API_WORDS, TwoStars) == CensorWordsIntended(s, API_WORDS[3..], TwoStars)
  {
    ListsNonEmpty();
    IntendedSplit(s, API_WORDS, 3, TwoStars);
    IntendedFirstThree(s);
  }

  lemma IntendedTail(s: string)
    requires s == "cc cc"
    ensures NonEmptyWords(API_WORDS[3..])
    ensures CensorWordsIntended(s, API_WORDS[3..], TwoStars) == "** **"
  {
    ListsNonEmpty();
    var t := "** **";
    LastThreeAbsent(t);
    assert API_WORDS[3..][1..] == API_WORDS[4..];
    IntendedTailAfterCc(s, API_WORDS[3..]);
  }

  /** A list that starts with "cc" and whose other words are absent from "** **" turns
      "cc cc" into "** **" under the intended scan. */
  lemma IntendedTailAfterCc(s: string, tail: seq<string>)
    requires s == "cc cc" && NonEmptyWords(tail) && tail != [] && tail[0] == "cc"
    requires Clean("** **", tail[1..])
    ensures CensorWordsIntended(s, tail, TwoStars) == "** **"
  {
    assert forall w :: w in tail[1..] ==> w in tail;
    assert Mask(TwoStars, tail[0]) == "**";
    IntendedStarsBoth();
  }

  lemma IntendedFirstThree(s: string)
    requires s == "cc cc"
    ensures CensorWordsIntended(s, API_WORDS[..3], TwoStars) == s
  {
    FirstThreeAbsent(s);
  }

}
