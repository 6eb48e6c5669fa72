/** Paragraph-boundary chunking of long texts for semantic indexing. */
module Chunking {

  const CHUNK_THRESHOLD := 2000
  const CHUNK_SIZE := 600
  const CHUNK_OVERLAP := 100

  /** Sentence punctuation in order of preference. */
  const SEPARATORS: string := "。！？.!?；;，,"

  /** The characters that stripping removes: Unicode white space. */
  predicate IsSpace(c: char) {
    var code := c as int;
    || 9 <= code <= 13 || 28 <= code <= 32 || code == 0x85 || code == 0xA0 || code == 0x1680
    || 0x2000 <= code <= 0x200A || code == 0x2028 || code == 0x2029 || code == 0x202F || code == 0x205F || code == 0x3000
  }

  predicate Blank(s: string) {
    forall i | 0 <= i < |s| :: IsSpace(s[i])
  }

  predicate Stripped(s: string) {
    s != [] ==> !IsSpace(s[0]) && !IsSpace(s[|s| - 1])
  }

  // ---- Ink: what must not get lost --------------------------------------------------------

  /** The characters of a text that are not white space, in order. */
  function Ink(s: string): string {
    if s == [] then [] else Ink(s[..|s| - 1]) + (if IsSpace(s[|s| - 1]) then [] else [s[|s| - 1]])
  }

  lemma {:induction false} InkConcat(a: string, b: string)
    ensures Ink(a + b) == Ink(a) + Ink(b)
  {
    if b == [] {
      assert a + b == a;
    } else {
      InkConcat(a, b[..|b| - 1]);
      assert (a + b)[..|a + b| - 1] == a + b[..|b| - 1];
    }
  }

  lemma InkOfOne(c: char)
    ensures Ink([c]) == if IsSpace(c) then [] else [c]
  {
    assert [c][..0] == [];
  }

  lemma InkJoin(a: string, b: string)
    ensures Ink(a + "\n" + b) == Ink(a) + Ink(b)
  {
    hide Ink;
    InkConcat(a + "\n", b);
    InkConcat(a, "\n");
    InkOfOne('\n');
  }

  lemma InkCut(s: string, k: nat)
    requires k <= |s|
    ensures Ink(s) == Ink(s[..k]) + Ink(s[k..])
  {
    hide Ink;
    InkConcat(s[..k], s[k..]);
    assert s == s[..k] + s[k..];
  }

  lemma {:induction false} BlankHasNoInk(s: string)
    ensures Blank(s) <==> Ink(s) == []
  {
    if s != [] {
      BlankHasNoInk(s[..|s| - 1]);
      assert forall i | 0 <= i < |s| :: i == |s| - 1 || s[i] == s[..|s| - 1][i];
    }
  }

  function StripLeft(s: string): string {
    if s != [] && IsSpace(s[0]) then StripLeft(s[1..]) else s
  }

  function StripRight(s: string): string {
    if s != [] && IsSpace(s[|s| - 1]) then StripRight(s[..|s| - 1]) else s
  }

  function Strip(s: string): string {
    StripRight(StripLeft(s))
  }

  lemma {:induction false} StripLeftFacts(s: string)
    ensures Ink(StripLeft(s)) == Ink(s)
    ensures StripLeft(s) != [] ==> !IsSpace(StripLeft(s)[0])
  {
    hide Ink, IsSpace;
    if s != [] && IsSpace(s[0]) {
      StripLeftFacts(s[1..]);
      InkCut(s, 1);
      InkOfOne(s[0]);
      assert s[..1] == [s[0]];
      assert Ink(s) == Ink(s[1..]);
    }
  }

  lemma {:induction false} StripLeftIsSuffix(s: string) returns (k: nat)
    ensures k <= |s| && StripLeft(s) == s[k..]
  {
    if s != [] && IsSpace(s[0]) {
      k := StripLeftIsSuffix(s[1..]);
      assert s[1..][k..] == s[k + 1..];
      k := k + 1;
    } else {
      k := 0;
    }
  }

  lemma {:induction false} StripRightFacts(s: string)
    ensures Ink(StripRight(s)) == Ink(s)
    ensures StripRight(s) != [] ==> !IsSpace(StripRight(s)[|StripRight(s)| - 1])
    ensures s != [] && !IsSpace(s[0]) ==> StripRight(s) != [] && StripRight(s)[0] == s[0]
    ensures exists k :: 0 <= k <= |s| && StripRight(s) == s[..k]
  {
    hide IsSpace;
    if s != [] && IsSpace(s[|s| - 1]) {
      StripRightFacts(s[..|s| - 1]);
      var k :| 0 <= k <= |s[..|s| - 1]| && StripRight(s[..|s| - 1]) == s[..|s| - 1][..k];
      assert s[..|s| - 1][..k] == s[..k];
    } else {
      assert s == s[..|s|];
    }
  }

  predicate Occurs(part: string, text: string, at: nat) {
    at + |part| <= |text| && text[at..at + |part|] == part
  }

  ghost predicate Substring(part: string, text: string) {
    exists at :: Occurs(part, text, at)
  }

  lemma StripFacts(s: string)
    ensures Stripped(Strip(s)) && Ink(Strip(s)) == Ink(s) && |Strip(s)| <= |s|
    ensures Substring(Strip(s), s)
  {
    hide Ink, IsSpace, StripLeft, StripRight;
    var left := StripLeft(s);
    StripLeftFacts(s);
    StripRightFacts(left);
    var k := StripLeftIsSuffix(s);
    var l :| 0 <= l <= |left| && Strip(s) == left[..l];
    assert s[k..k + l] == left[..l];
    assert Occurs(Strip(s), s, k);
  }

  lemma SubstringReflexive(s: string)
    ensures Substring(s, s)
  {
    assert Occurs(s, s, 0);
  }

  lemma SubstringSlice(s: string, text: string, from: nat, to: nat)
    requires Substring(s, text) && from <= to <= |s|
    ensures Substring(s[from..to], text)
  {
    var at: nat :| Occurs(s, text, at);
    var part := s[from..to];
    var there := text[at + from..at + from + |part|];
    forall i | 0 <= i < |part| ensures there[i] == part[i] {
      assert text[at..at + |s|][from + i] == s[from + i];
    }
    assert there == part;
    assert Occurs(part, text, at + from);
  }

  lemma SubstringTransitive(a: string, b: string, c: string)
    requires Substring(a, b) && Substring(b, c)
    ensures Substring(a, c)
  {
    var at: nat :| Occurs(a, b, at);
    SubstringSlice(b, c, at, at + |a|);
  }

  // ---- Order-preserving inclusion -----------------------------------------------------------

  /** `at` places every character of `a` in `b`, strictly left to right. */
  ghost predicate Placement(a: string, b: string, at: seq<nat>) {
    && |at| == |a|
    && (forall i | 0 <= i < |a| :: at[i] < |b| && b[at[i]] == a[i])
    && (forall i, j | 0 <= i < j < |a| :: at[i] < at[j])
  }

  /** Every character of `a` occurs in `b`, in the same order. */
  ghost predicate Embeds(a: string, b: string) {
    exists at :: Placement(a, b, at)
  }

  lemma EmbedsReflexive(a: string)
    ensures Embeds(a, a)
  {
    assert Placement(a, a, seq(|a|, i => i));
  }

  lemma EmbedsTransitive(a: string, b: string, c: string)
    requires Embeds(a, b) && Embeds(b, c)
    ensures Embeds(a, c)
  {
    var f: seq<nat> :| Placement(a, b, f);
    var g: seq<nat> :| Placement(b, c, g);
    var h := seq(|a|, i requires 0 <= i < |a| => g[f[i]]);
    assert Placement(a, c, h);
  }

  lemma EmbedsConcat(a: string, b: string, c: string, d: string)
    requires Embeds(a, c) && Embeds(b, d)
    ensures Embeds(a + b, c + d)
  {
    var f: seq<nat> :| Placement(a, c, f);
    var g: seq<nat> :| Placement(b, d, g);
    var h := f + seq(|b|, i requires 0 <= i < |b| => g[i] + |c|);
    forall i | 0 <= i < |a + b| ensures h[i] < |c + d| && (c + d)[h[i]] == (a + b)[i] {
    }
    assert Placement(a + b, c + d, h);
  }

  /** Extra text in front of a place is allowed. */
  lemma EmbedsAfter(prefix: string, a: string)
    ensures Embeds(a, prefix + a)
  {
    assert Placement([], prefix, []);
    EmbedsReflexive(a);
    EmbedsConcat([], a, prefix, a);
    assert [] + a == a;
  }

  function InkAll(parts: seq<string>): string {
    if parts == [] then [] else InkAll(parts[..|parts| - 1]) + Ink(parts[|parts| - 1])
  }

  lemma {:induction false} InkAllConcat(a: seq<string>, b: seq<string>)
    ensures InkAll(a + b) == InkAll(a) + InkAll(b)
  {
    hide Ink;
    if b == [] {
      assert a + b == a;
    } else {
      InkAllConcat(a, b[..|b| - 1]);
      assert (a + b)[..|a + b| - 1] == a + b[..|b| - 1];
    }
  }

  lemma InkAllOne(s: string)
    ensures InkAll([s]) == Ink(s)
  {
    assert [s][..0] == [];
  }

  // ---- Paragraphs -----------------------------------------------------------------------------

  predicate BreakAt(s: string, i: nat) {
    i + 1 < |s| && s[i] == '\n' && s[i + 1] == '\n'
  }

  /** The first paragraph break at or after `i`, or the length of the text. */
  function FirstBreak(s: string, i: nat): (k: nat)
    requires i <= |s|
    ensures i <= k <= |s| && (k < |s| ==> BreakAt(s, k)) && forall j | i <= j < k :: !BreakAt(s, j)
    decreases |s| - i
  {
    if i == |s| || BreakAt(s, i) then i else FirstBreak(s, i + 1)
  }

  /** Splitting at every paragraph break, left to right without overlaps. */
  function Paragraphs(s: string): (r: seq<string>)
    decreases |s|
  {
    var k := FirstBreak(s, 0);
    if k == |s| then [s] else [s[..k]] + Paragraphs(s[k + 2..])
  }

  lemma BreakHasNoInk(s: string, k: nat)
    requires BreakAt(s, k)
    ensures Ink(s) == Ink(s[..k]) + Ink(s[k + 2..])
  {
    hide Ink;
    var rest := s[k + 2..];
    InkJoin(s[..k], "\n" + rest);
    InkConcat("\n", rest);
    InkOfOne('\n');
    assert s == s[..k] + "\n" + ("\n" + rest);
  }

  lemma {:induction false} ParagraphsKeepInk(s: string)
    ensures InkAll(Paragraphs(s)) == Ink(s)
    ensures forall p | p in Paragraphs(s) :: Substring(p, s)
    decreases |s|
  {
    hide Ink, InkAll, Substring;
    var k := FirstBreak(s, 0);
    SubstringReflexive(s);
    if k == |s| {
      InkAllOne(s);
    } else {
      var rest := s[k + 2..];
      ParagraphsKeepInk(rest);
      InkAllConcat([s[..k]], Paragraphs(rest));
      InkAllOne(s[..k]);
      BreakHasNoInk(s, k);
      SubstringSlice(s, s, 0, k);
      SubstringSlice(s, s, k + 2, |s|);
      assert s[0..k] == s[..k] && s[k + 2..|s|] == rest;
      forall p | p in Paragraphs(s) ensures Substring(p, s) {
        if p != s[..k] {
          SubstringTransitive(p, rest, s);
        }
      }
    }
  }

  /** The paragraphs put together again, with an empty line between any two. */
  function Rejoined(parts: seq<string>): string {
    if parts == [] then [] else if |parts| == 1 then parts[0] else parts[0] + "\n\n" + Rejoined(parts[1..])
  }

  /** No two newlines in a row. */
  ghost predicate Unbroken(s: string) {
    forall i | 0 <= i < |s| - 1 :: !(s[i] == '\n' && s[i + 1] == '\n')
  }

  lemma UnbrokenUpTo(s: string, k: nat)
    requires k <= |s| && forall j: nat | j < k :: !BreakAt(s, j)
    ensures Unbroken(s[..k])
  {
    forall i | 0 <= i < k - 1 ensures !(s[i] == '\n' && s[i + 1] == '\n') {
      assert !BreakAt(s, i);
    }
  }

  lemma RejoinFirst(first: string, rest: seq<string>)
    requires rest != []
    ensures Rejoined([first] + rest) == first + "\n\n" + Rejoined(rest)
  {
    assert ([first] + rest)[1..] == rest;
  }

  lemma AroundBreak(s: string, k: nat)
    requires BreakAt(s, k)
    ensures s == s[..k] + "\n\n" + s[k + 2..]
  {
  }

  /** Splitting is undone by joining, and no paragraph could be split further. */
  lemma {:induction false} ParagraphsRoundTrip(s: string)
    ensures Paragraphs(s) != [] && Rejoined(Paragraphs(s)) == s
    ensures forall p | p in Paragraphs(s) :: Unbroken(p)
    decreases |s|
  {
    hide Unbroken, Rejoined;
    var k := FirstBreak(s, 0);
    UnbrokenUpTo(s, k);
    if k == |s| {
      assert s[..k] == s;
      RejoinOne(s);
    } else {
      hide BreakAt;
      var rest := s[k + 2..];
      ParagraphsRoundTrip(rest);
      RejoinFirst(s[..k], Paragraphs(rest));
      AroundBreak(s, k);
    }
  }

  lemma RejoinOne(s: string)
    ensures Rejoined([s]) == s
  {
  }

  lemma UnbrokenPart(u: string, s: string)
    requires Unbroken(s) && Substring(u, s)
    ensures Unbroken(u)
  {
    var at: nat :| Occurs(u, s, at);
    forall i | 0 <= i < |u| - 1 ensures !(u[i] == '\n' && u[i + 1] == '\n') {
      assert u[i] == s[at + i] && u[i + 1] == s[at + (i + 1)];
    }
  }

  // ---- Hard cuts ------------------------------------------------------------------------------

  /** The last position of a character, or -1. */
  function LastIndex(s: string, c: char): (k: int)
    ensures -1 <= k < |s| && (k >= 0 ==> s[k] == c) && forall j | k < j < |s| :: s[j] != c
  {
    if s == [] then -1 else if s[|s| - 1] == c then |s| - 1 else LastIndex(s[..|s| - 1], c)
  }

  /** A position in the second half of the window after which a cut may fall. */
  predicate CutsAfter(paragraph: string, c: char, k: nat) {
    CHUNK_SIZE / 2 <= k < CHUNK_SIZE && k < |paragraph| && paragraph[k] == c
  }

  /** The cut of an oversized paragraph: after the last newline in the second half of the window,
      else after the last of the first separator that occurs there, else at the full size. */
  method HardCut(paragraph: string) returns (cut: nat)
    requires |paragraph| > CHUNK_SIZE
    ensures CHUNK_SIZE / 2 < cut <= CHUNK_SIZE
    ensures (exists k: nat :: CutsAfter(paragraph, '\n', k)) ==>
              CutsAfter(paragraph, '\n', cut - 1) && forall k: nat | cut <= k :: !CutsAfter(paragraph, '\n', k)
    ensures (forall k: nat :: !CutsAfter(paragraph, '\n', k)) ==>
              || (cut == CHUNK_SIZE && forall i, k: nat | 0 <= i < |SEPARATORS| :: !CutsAfter(paragraph, SEPARATORS[i], k))
              || exists i :: 0 <= i < |SEPARATORS| && CutsAfter(paragraph, SEPARATORS[i], cut - 1)
                             && (forall k: nat | cut <= k :: !CutsAfter(paragraph, SEPARATORS[i], k))
                             && forall h, k: nat | 0 <= h < i :: !CutsAfter(paragraph, SEPARATORS[h], k)
  {
    var window := paragraph[..CHUNK_SIZE];
    var last := LastIndex(window, '\n');
    LastIndexCut(paragraph, '\n');
    if last >= CHUNK_SIZE / 2 {
      return last + 1;
    }
    for i := 0 to |SEPARATORS|
      invariant forall h, k: nat | 0 <= h < i :: !CutsAfter(paragraph, SEPARATORS[h], k)
    {
      last := LastIndex(window, SEPARATORS[i]);
      LastIndexCut(paragraph, SEPARATORS[i]);
      if last >= CHUNK_SIZE / 2 {
        assert CutsAfter(paragraph, SEPARATORS[i], last);
        return last + 1;
      }
    }
    return CHUNK_SIZE;
  }

  lemma LastIndexCut(paragraph: string, c: char)
    requires |paragraph| > CHUNK_SIZE
    ensures var last := LastIndex(paragraph[..CHUNK_SIZE], c);
            if last >= CHUNK_SIZE / 2 then
              CutsAfter(paragraph, c, last) && forall k: nat | last < k :: !CutsAfter(paragraph, c, k)
            else forall k: nat :: !CutsAfter(paragraph, c, k)
  {
    var window := paragraph[..CHUNK_SIZE];
    var last := LastIndex(window, c);
    assert last >= 0 ==> paragraph[last] == window[last];
    forall k: nat | CutsAfter(paragraph, c, k) ensures k <= last {
      assert window[k] == paragraph[k];
    }
  }

  // ---- Units ------------------------------------------------------------------------------------

  /** A piece that may be packed: stripped, not empty, at most one chunk long, and taken from the
      text as it stands. */
  ghost predicate Unit(u: string, text: string) {
    0 < |u| <= CHUNK_SIZE && Stripped(u) && Substring(u, text)
  }

  /** Cuts one stripped paragraph into units that repeat the overlap and lose no ink. */
  method CutParagraph(paragraph: string, ghost text: string) returns (units: seq<string>)
    requires Stripped(paragraph) && Substring(paragraph, text)
    ensures forall u | u in units :: Unit(u, text)
    ensures Embeds(Ink(paragraph), InkAll(units))
  {
    units := [];
    var rest := paragraph;
    EmbedsReflexive(Ink(paragraph));
    assert InkAll([]) + Ink(rest) == Ink(paragraph);
    while |rest| > CHUNK_SIZE
      invariant Stripped(rest) && Substring(rest, text)
      invariant forall u | u in units :: Unit(u, text)
      invariant Embeds(Ink(paragraph), InkAll(units) + Ink(rest))
      decreases |rest|
    {
      var cut := HardCut(rest);
      var unit, tail := Strip(rest[..cut]), Strip(rest[cut - CHUNK_OVERLAP..]);
      CutStep(rest, cut, text);
      CutKeepsInk(Ink(paragraph), units, rest, unit, tail);
      units, rest := units + [unit], tail;
    }
    if rest != [] {
      InkAllConcat(units, [rest]);
      InkAllOne(rest);
      units := units + [rest];
    } else {
      assert InkAll(units) + Ink(rest) == InkAll(units);
    }
  }

  /** One cut: the piece is a unit, the remainder is at least 201 characters shorter, and
      together they hold all the ink. */
  lemma CutStep(rest: string, cut: nat, text: string)
    requires Stripped(rest) && Substring(rest, text) && |rest| > CHUNK_SIZE && CHUNK_SIZE / 2 < cut <= CHUNK_SIZE
    ensures var unit, tail := Strip(rest[..cut]), Strip(rest[cut - CHUNK_OVERLAP..]);
            && Unit(unit, text) && Stripped(tail) && Substring(tail, text)
            && |tail| <= |rest| - 201 && Embeds(Ink(rest), Ink(unit) + Ink(tail))
  {
    CutPlaces(rest, cut, text);
    CutInk(rest, cut);
  }

  lemma CutPlaces(rest: string, cut: nat, text: string)
    requires Stripped(rest) && Substring(rest, text) && |rest| > CHUNK_SIZE && CHUNK_SIZE / 2 < cut <= CHUNK_SIZE
    ensures var unit, tail := Strip(rest[..cut]), Strip(rest[cut - CHUNK_OVERLAP..]);
            && Unit(unit, text) && Stripped(tail) && Substring(tail, text) && |tail| <= |rest| - 201
  {
    hide Ink, IsSpace, Strip, Substring;
    var head, back := rest[..cut], rest[cut - CHUNK_OVERLAP..];
    StripFacts(head);
    StripFacts(back);
    SubstringSlice(rest, text, 0, cut);
    SubstringSlice(rest, text, cut - CHUNK_OVERLAP, |rest|);
    assert rest[0..cut] == head && rest[cut - CHUNK_OVERLAP..|rest|] == back;
    SubstringTransitive(Strip(head), head, text);
    SubstringTransitive(Strip(back), back, text);
    assert head[0] == rest[0];
    InkNotEmpty(head, Strip(head));
  }

  lemma InkNotEmpty(s: string, t: string)
    requires s != [] && !IsSpace(s[0]) && Ink(t) == Ink(s)
    ensures t != []
  {
    BlankHasNoInk(s);
    BlankHasNoInk(t);
  }

  lemma CutInk(rest: string, cut: nat)
    requires |rest| > CHUNK_SIZE && CHUNK_SIZE / 2 < cut <= CHUNK_SIZE
    ensures Embeds(Ink(rest), Ink(Strip(rest[..cut])) + Ink(Strip(rest[cut - CHUNK_OVERLAP..])))
  {
    hide Ink, Strip, Embeds;
    var head, back := rest[..cut], rest[cut - CHUNK_OVERLAP..];
    StripFacts(head);
    StripFacts(back);
    InkCut(rest, cut);
    InkCut(back, CHUNK_OVERLAP);
    assert back[CHUNK_OVERLAP..] == rest[cut..];
    EmbedsReflexive(Ink(head));
    EmbedsAfter(Ink(back[..CHUNK_OVERLAP]), Ink(rest[cut..]));
    EmbedsConcat(Ink(head), Ink(rest[cut..]), Ink(head), Ink(back));
  }

  lemma CutKeepsInk(goal: string, units: seq<string>, rest: string, unit: string, tail: string)
    requires Embeds(goal, InkAll(units) + Ink(rest)) && Embeds(Ink(rest), Ink(unit) + Ink(tail))
    ensures Embeds(goal, InkAll(units + [unit]) + Ink(tail))
  {
    InkAllConcat(units, [unit]);
    InkAllOne(unit);
    EmbedsReflexive(InkAll(units));
    EmbedsConcat(InkAll(units), Ink(rest), InkAll(units), Ink(unit) + Ink(tail));
    EmbedsTransitive(goal, InkAll(units) + Ink(rest), InkAll(units) + (Ink(unit) + Ink(tail)));
    assert InkAll(units) + (Ink(unit) + Ink(tail)) == InkAll(units + [unit]) + Ink(tail);
  }

  /** A unit of a paragraph is one of the text, with no empty line in it. */
  lemma UnitOfParagraph(u: string, paragraph: string, text: string)
    requires Unit(u, paragraph) && Unbroken(paragraph) && Substring(paragraph, text)
    ensures Unit(u, text) && Unbroken(u) && !IsSpace(u[0]) && !IsSpace(u[|u| - 1])
  {
    hide Substring, IsSpace, Unbroken;
    SubstringTransitive(u, paragraph, text);
    UnbrokenPart(u, paragraph);
  }

  /** The pieces to pack: of at most 600 characters, from the text as it stands, without white space at
      either end and without an empty line inside; together they hold all the ink, in order. */
  method AtomicUnits(text: string) returns (units: seq<string>)
    ensures forall u | u in units :: Unit(u, text)
    ensures forall u | u in units :: 0 < |u| <= 600 && !IsSpace(u[0]) && !IsSpace(u[|u| - 1]) && Unbroken(u)
    ensures Embeds(Ink(text), InkAll(units))
  {
    hide Embeds, Ink, InkAll, Strip, Substring, Unbroken, IsSpace;
    units := [];
    var paragraphs := Paragraphs(text);
    ParagraphsKeepInk(text);
    ParagraphsRoundTrip(text);
    PackStart(paragraphs);
    for i := 0 to |paragraphs|
      invariant forall u | u in units :: Unit(u, text) && Unbroken(u) && !IsSpace(u[0]) && !IsSpace(u[|u| - 1])
      invariant Embeds(InkAll(paragraphs[..i]), InkAll(units))
    {
      InkAllNext(paragraphs, i);
      var paragraph := Strip(paragraphs[i]);
      StripFacts(paragraphs[i]);
      assert paragraphs[i] in paragraphs;
      SubstringTransitive(paragraph, paragraphs[i], text);
      if paragraph == [] {
        NoInk();
        assert InkAll(paragraphs[..i + 1]) == InkAll(paragraphs[..i]);
      } else {
        SubstringReflexive(paragraph);
        UnbrokenPart(paragraph, paragraphs[i]);
        var more := CutParagraph(paragraph, paragraph);
        forall u | u in more ensures Unit(u, text) && Unbroken(u) && !IsSpace(u[0]) && !IsSpace(u[|u| - 1]) {
          UnitOfParagraph(u, paragraph, text);
        }
        InkAllConcat(units, more);
        EmbedsConcat(InkAll(paragraphs[..i]), Ink(paragraph), InkAll(units), InkAll(more));
        units := units + more;
      }
    }
    assert paragraphs[..|paragraphs|] == paragraphs;
  }

  // ---- Packing ----------------------------------------------------------------------------------

  /** The last characters that the next chunk repeats. */
  function Tail(s: string): string {
    if |s| <= CHUNK_OVERLAP then s else s[|s| - CHUNK_OVERLAP..]
  }

  /** A chunk after `previous` repeats its tail, and the two could not have been one chunk. */
  predicate Follows(previous: string, chunk: string) {
    && Tail(previous) + "\n" <= chunk
    && |previous| + |chunk| - |Tail(previous)| > CHUNK_SIZE
  }

  predicate Chunk(c: string) {
    0 < |c| <= CHUNK_SIZE + CHUNK_OVERLAP + 1 && !Blank(c)
  }

  ghost predicate Packed(blocks: seq<string>) {
    && (forall b | b in blocks :: Chunk(b))
    && (forall k | 0 < k < |blocks| :: Follows(blocks[k - 1], blocks[k]))
  }

  /** What is being collected: nothing yet, or a chunk that follows the last finished one. */
  ghost predicate Collecting(blocks: seq<string>, current: string) {
    && (current == [] ==> blocks == [])
    && (current != [] ==> Chunk(current))
    && (current != [] && blocks != [] ==> Follows(blocks[|blocks| - 1], current))
  }

  // ---- Nothing but the text -----------------------------------------------------------------

  function Join(pieces: seq<string>): string {
    if pieces == [] then [] else if |pieces| == 1 then pieces[0] else pieces[0] + "\n" + Join(pieces[1..])
  }

  ghost predicate Pieced(c: string, pieces: seq<string>, text: string) {
    pieces != [] && c == Join(pieces) && forall i | 0 <= i < |pieces| :: Substring(pieces[i], text)
  }

  /** The chunk consists of parts of the text, as they stand, with newlines between them. */
  ghost predicate MadeOf(c: string, text: string) {
    exists pieces :: Pieced(c, pieces, text)
  }

  lemma MadeOfPart(c: string, text: string)
    requires Substring(c, text)
    ensures MadeOf(c, text)
  {
    hide Substring;
    assert Pieced(c, [c], text);
  }

  lemma {:induction false} JoinAppend(pieces: seq<string>, u: string)
    requires pieces != []
    ensures Join(pieces + [u]) == Join(pieces) + "\n" + u
  {
    if |pieces| == 1 {
      assert (pieces + [u])[1..] == [u];
    } else {
      JoinAppend(pieces[1..], u);
      assert (pieces + [u])[1..] == pieces[1..] + [u];
    }
  }

  lemma MadeOfJoin(c: string, u: string, text: string)
    requires MadeOf(c, text) && Substring(u, text)
    ensures MadeOf(c + "\n" + u, text)
  {
    hide Substring, Join;
    var pieces :| Pieced(c, pieces, text);
    JoinAppend(pieces, u);
    assert Pieced(c + "\n" + u, pieces + [u], text);
  }

  /** The last part of such a chunk is one too. */
  lemma {:induction false} PiecedSuffix(pieces: seq<string>, k: nat, text: string) returns (rest: seq<string>)
    requires pieces != [] && k <= |Join(pieces)| && forall i | 0 <= i < |pieces| :: Substring(pieces[i], text)
    ensures Pieced(Join(pieces)[k..], rest, text)
  {
    var first, tail := pieces[0], pieces[1..];
    if k <= |first| {
      SubstringSlice(first, text, k, |first|);
      rest := [first[k..]] + tail;
      assert first[k..|first|] == first[k..];
      forall i | 0 <= i < |rest| ensures Substring(rest[i], text) {
        assert i > 0 ==> rest[i] == pieces[i];
      }
      if tail != [] {
        assert rest[1..] == tail;
        assert Join(pieces)[k..] == first[k..] + "\n" + Join(tail);
      }
    } else {
      rest := PiecedSuffix(tail, k - |first| - 1, text);
      assert Join(pieces)[k..] == Join(tail)[k - |first| - 1..];
    }
  }

  lemma MadeOfTail(c: string, text: string)
    requires MadeOf(c, text)
    ensures MadeOf(Tail(c), text)
  {
    var pieces :| Pieced(c, pieces, text);
    if |c| > CHUNK_OVERLAP {
      var rest := PiecedSuffix(pieces, |c| - CHUNK_OVERLAP, text);
    }
  }

  lemma UnitIsPart(u: string, text: string)
    requires Unit(u, text)
    ensures Substring(u, text)
  {
  }

  method Pack(units: seq<string>, ghost text: string) returns (blocks: seq<string>)
    requires forall u | u in units :: Unit(u, text)
    ensures Packed(blocks) && Embeds(InkAll(units), InkAll(blocks))
    ensures forall b | b in blocks :: MadeOf(b, text)
  {
    blocks := [];
    hide Packed, Collecting, Embeds, Ink, InkAll, Unit, Tail, MadeOf, Substring;
    var current: string := [];
    PackStart(units);
    for i := 0 to |units|
      invariant Packed(blocks) && Collecting(blocks, current)
      invariant Embeds(InkAll(units[..i]), InkAll(blocks) + Ink(current))
      invariant (forall b | b in blocks :: MadeOf(b, text)) && (current != [] ==> MadeOf(current, text))
    {
      var unit := units[i];
      assert unit in units;
      UnitIsPart(unit, text);
      MadeOfPart(unit, text);
      if current != [] {
        MadeOfTail(current, text);
        MadeOfJoin(current, unit, text);
        MadeOfJoin(Tail(current), unit, text);
      }
      InkAllNext(units, i);
      ghost var blocks0, current0 := blocks, current;
      var candidate := if current != [] then current + "\n" + unit else unit;
      if current != [] && |candidate| > CHUNK_SIZE {
        blocks := blocks + [current];
        current := Tail(current) + "\n" + unit;
        FlushKeeps(blocks0, current0, unit, text, InkAll(units[..i]));
      } else {
        current := candidate;
        GrowKeeps(blocks0, current0, unit, text, InkAll(units[..i]));
      }
    }
    assert units[..|units|] == units;
    PackEnd(blocks, current);
    if current != [] {
      blocks := blocks + [current];
    }
  }

  lemma PackStart(units: seq<string>)
    ensures Packed([]) && Collecting([], []) && Embeds(InkAll(units[..0]), InkAll([]) + Ink([]))
    ensures InkAll([]) + Ink([]) == InkAll([])
  {
    EmbedsReflexive([]);
    assert InkAll([]) + Ink([]) == [];
  }

  lemma InkAllNext(units: seq<string>, i: nat)
    requires i < |units|
    ensures InkAll(units[..i + 1]) == InkAll(units[..i]) + Ink(units[i])
  {
    assert units[..i + 1][..i] == units[..i];
  }

  lemma PackEnd(blocks: seq<string>, current: string)
    requires Packed(blocks) && Collecting(blocks, current)
    ensures Packed(if current != [] then blocks + [current] else blocks)
    ensures InkAll(blocks) + Ink(current) == InkAll(if current != [] then blocks + [current] else blocks)
  {
    hide Ink, InkAll, Chunk, Follows;
    NoInk();
    if current != [] {
      var more := blocks + [current];
      InkAllConcat(blocks, [current]);
      InkAllOne(current);
      forall k | 0 < k < |more| ensures Follows(more[k - 1], more[k]) {
      }
    }
  }

  lemma UnitIsChunk(unit: string, text: string)
    requires Unit(unit, text)
    ensures unit != [] && Chunk(unit)
  {
    assert !IsSpace(unit[0]);
  }

  lemma JoinedIsChunk(a: string, unit: string, text: string)
    requires Unit(unit, text) && |a| + 1 + |unit| <= CHUNK_SIZE + CHUNK_OVERLAP + 1
    ensures Chunk(a + "\n" + unit)
  {
    assert (a + "\n" + unit)[|a| + 1] == unit[0];
  }

  lemma GrowKeeps(blocks: seq<string>, current: string, unit: string, text: string, goal: string)
    requires Collecting(blocks, current) && Unit(unit, text) && Embeds(goal, InkAll(blocks) + Ink(current))
    requires current != [] ==> |current + "\n" + unit| <= CHUNK_SIZE
    ensures var candidate := if current != [] then current + "\n" + unit else unit;
            Collecting(blocks, candidate) && Embeds(goal + Ink(unit), InkAll(blocks) + Ink(candidate))
  {
    hide Embeds, Ink, InkAll, IsSpace, Unit, Follows, Chunk;
    EmbedsReflexive(Ink(unit));
    EmbedsConcat(goal, Ink(unit), InkAll(blocks) + Ink(current), Ink(unit));
    if current == [] {
      NoInk();
      assert InkAll(blocks) + Ink(current) + Ink(unit) == InkAll(blocks) + Ink(unit);
      UnitIsChunk(unit, text);
    } else {
      InkJoin(current, unit);
      JoinedIsChunk(current, unit, text);
      assert InkAll(blocks) + Ink(current) + Ink(unit) == InkAll(blocks) + (Ink(current) + Ink(unit));
      if blocks != [] {
        GrowFollows(blocks[|blocks| - 1], current, "\n" + unit);
        assert current + "\n" + unit == current + ("\n" + unit);
      }
    }
  }

  lemma NoInk()
    ensures Ink([]) == []
  {
  }

  lemma GrowFollows(previous: string, chunk: string, more: string)
    requires Follows(previous, chunk)
    ensures Follows(previous, chunk + more)
  {
  }

  lemma FlushKeeps(blocks: seq<string>, current: string, unit: string, text: string, goal: string)
    requires Packed(blocks) && Collecting(blocks, current) && current != [] && Unit(unit, text)
    requires |current + "\n" + unit| > CHUNK_SIZE && Embeds(goal, InkAll(blocks) + Ink(current))
    ensures Packed(blocks + [current]) && Collecting(blocks + [current], Tail(current) + "\n" + unit)
    ensures Embeds(goal + Ink(unit), InkAll(blocks + [current]) + Ink(Tail(current) + "\n" + unit))
  {
    hide Embeds, Ink, InkAll, IsSpace, Substring;
    PackEnd(blocks, current);
    JoinedIsChunk(Tail(current), unit, text);
    InkJoin(Tail(current), unit);
    EmbedsAfter(Ink(Tail(current)), Ink(unit));
    EmbedsConcat(goal, Ink(unit), InkAll(blocks + [current]), Ink(Tail(current)) + Ink(unit));
  }

  lemma PackedNotBlank(chunks: seq<string>)
    requires Packed(chunks)
    ensures forall c | c in chunks :: !Blank(c)
  {
  }

  lemma StripsToNothing(text: string)
    ensures text == [] || Strip(text) == [] <==> Blank(text)
  {
    BlankHasNoInk(text);
    BlankHasNoInk(Strip(text));
    StripFacts(text);
    if Strip(text) != [] {
      assert !IsSpace(Strip(text)[0]);
    }
  }

  lemma NoPartsNoInk(text: string)
    requires Blank(text)
    ensures Embeds(Ink(text), InkAll([]))
  {
    BlankHasNoInk(text);
    EmbedsReflexive([]);
  }

  lemma InkNeedsAPart(text: string, chunks: seq<string>)
    requires !Blank(text) && Embeds(Ink(text), InkAll(chunks))
    ensures chunks != []
  {
    BlankHasNoInk(text);
    var at: seq<nat> :| Placement(Ink(text), InkAll(chunks), at);
    assert at[0] < |InkAll(chunks)|;
  }

  lemma PackedMeans(chunks: seq<string>)
    requires Packed(chunks)
    ensures forall c | c in chunks :: 0 < |c| <= 701
    ensures forall k | 0 < k < |chunks| ::
              var repeated := if |chunks[k - 1]| <= 100 then chunks[k - 1] else chunks[k - 1][|chunks[k - 1]| - 100..];
              repeated + "\n" <= chunks[k] && |chunks[k - 1]| + |chunks[k]| - |repeated| > 600
  {
    hide Blank;
    forall k | 0 < k < |chunks|
      ensures var repeated := if |chunks[k - 1]| <= 100 then chunks[k - 1] else chunks[k - 1][|chunks[k - 1]| - 100..];
              repeated + "\n" <= chunks[k] && |chunks[k - 1]| + |chunks[k]| - |repeated| > 600
    {
      assert Follows(chunks[k - 1], chunks[k]);
    }
  }

  /** Splits a text into ordered chunks. A blank text has none, a short one is its own chunk, and
      of a long one every character that is not white space is in some chunk, in order; no chunk
      is blank or longer than 701 characters, each repeats the tail of the one before it, and each
      consists of parts of the text with newlines between them. */
  method SplitChunks(text: string) returns (chunks: seq<string>)
    ensures chunks == [] <==> Blank(text)
    ensures !Blank(text) && |text| < 2000 ==> chunks == [text]
    ensures |text| >= 2000 ==>
              && Packed(chunks)
              && (forall c | c in chunks :: 0 < |c| <= 701)
              && forall k | 0 < k < |chunks| ::
                   var repeated := if |chunks[k - 1]| <= 100 then chunks[k - 1] else chunks[k - 1][|chunks[k - 1]| - 100..];
                   repeated + "\n" <= chunks[k] && |chunks[k - 1]| + |chunks[k]| - |repeated| > 600
    ensures forall c | c in chunks :: !Blank(c)
    ensures Embeds(Ink(text), InkAll(chunks))
    ensures forall c | c in chunks :: MadeOf(c, text)
  {
    hide MadeOf, Packed, Substring, Ink, InkAll, Strip, IsSpace, Embeds;
    SubstringReflexive(text);
    MadeOfPart(text, text);
    StripsToNothing(text);
    if text == [] || Strip(text) == [] {
      NoPartsNoInk(text);
      PackStart([]);
      return [];
    }
    if |text| < CHUNK_THRESHOLD {
      InkAllOne(text);
      EmbedsReflexive(Ink(text));
      return [text];
    }
    var units := AtomicUnits(text);
    chunks := Pack(units, text);
    EmbedsTransitive(Ink(text), InkAll(units), InkAll(chunks));
    InkNeedsAPart(text, chunks);
    PackedNotBlank(chunks);
    PackedMeans(chunks);
  }
}
