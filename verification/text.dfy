/** Character-level text operations shared by the search filters of the
    library: a model of `String.prototype.toLowerCase`, of canonical
    decomposition (`normalize("NFD")`), of stripping combining marks and of
    `String.prototype.includes`.

    `toLowerCase` and NFD are modelled on the letters the library's users
    type (ASCII, Latin-1 and the Vietnamese alphabet); every other character
    is treated as having no lower-case mapping and no decomposition. */
module Text {

  // ---------------------------------------------------------------------
  // Lower-casing
  // ---------------------------------------------------------------------

  /** Upper-case letters outside ASCII and Latin-1 whose lower-case form is
      the next code point: Ă, Đ, Ĩ, Ũ, Ơ, Ư and the even code points of the
      Vietnamese block U+1EA0..U+1EF9. */
  predicate IsPairedUpper(c: char) {
    || c == '\U{0102}' || c == '\U{0110}' || c == '\U{0128}'
    || c == '\U{0168}' || c == '\U{01A0}' || c == '\U{01AF}'
    || ('\U{1EA0}' <= c <= '\U{1EF8}' && (c as int) % 2 == 0)
  }

  /** Upper-case Latin-1 letters U+00C0..U+00DE except the sign ×. */
  predicate IsLatin1Upper(c: char) {
    '\U{00C0}' <= c <= '\U{00DE}' && c != '\U{00D7}'
  }

  /** The lower-case form of one character. */
  function LowerChar(c: char): (l: char)
    ensures l == c <==> !('A' <= c <= 'Z' || IsLatin1Upper(c) || IsPairedUpper(c))
    ensures !IsPairedUpper(l) && !IsLatin1Upper(l) && !('A' <= l <= 'Z')
  {
    if 'A' <= c <= 'Z' then (c as int + 32) as char
    else if IsLatin1Upper(c) then (c as int + 32) as char
    else if IsPairedUpper(c) then (c as int + 1) as char
    else c
  }

  /** `s.toLowerCase()`: lower-cases character by character. */
  function Lower(s: string): (r: string)
    ensures |r| == |s|
    ensures forall i :: 0 <= i < |s| ==> r[i] == LowerChar(s[i])
  {
    seq(|s|, i requires 0 <= i < |s| => LowerChar(s[i]))
  }

  lemma LowerAppend(a: string, b: string)
    ensures Lower(a + b) == Lower(a) + Lower(b)
  {
  }

  /** Lower-casing twice is lower-casing once. */
  lemma LowerIdempotent(s: string)
    ensures Lower(Lower(s)) == Lower(s)
  {
  }

  // ---------------------------------------------------------------------
  // Canonical decomposition (NFD)
  // ---------------------------------------------------------------------

  /** The combining marks U+0300..U+036F that the filters remove. */
  predicate IsCombiningMark(c: char) {
    '\U{0300}' <= c <= '\U{036F}'
  }

  type Mark = c: char | IsCombiningMark(c) witness '\U{0300}'
  type AsciiUpper = c: char | 'A' <= c <= 'Z' witness 'A'

  /** One entry of a decomposition table: a letter with no decomposition,
      or an upper-case ASCII base letter followed by combining marks. */
  datatype Decomposition = Atomic | Composed(base: AsciiUpper, marks: seq<Mark>)

  // The combining marks that occur in the decompositions below.
  const Grave: Mark := '\U{0300}'
  const Acute: Mark := '\U{0301}'
  const Circumflex: Mark := '\U{0302}'
  const Tilde: Mark := '\U{0303}'
  const Breve: Mark := '\U{0306}'
  const Diaeresis: Mark := '\U{0308}'
  const HookAbove: Mark := '\U{0309}'
  const RingAbove: Mark := '\U{030A}'
  const Horn: Mark := '\U{031B}'
  const DotBelow: Mark := '\U{0323}'
  const Cedilla: Mark := '\U{0327}'

  /** Marks of the decompositions of U+00C0..U+00DD, indexed from U+00C0
      (empty for Æ, Ð, × and Ø, which do not decompose); the lower-case
      letters U+00E0..U+00FD carry the same marks. */
  const Latin1Marks: seq<seq<Mark>> := [
    [Grave], [Acute], [Circumflex], [Tilde], [Diaeresis], [RingAbove],                      // À Á Â Ã Ä Å
    [],                                                                                     // Æ
    [Cedilla],                                                                              // Ç
    [Grave], [Acute], [Circumflex], [Diaeresis],                                            // È É Ê Ë
    [Grave], [Acute], [Circumflex], [Diaeresis],                                            // Ì Í Î Ï
    [],                                                                                     // Ð
    [Tilde],                                                                                // Ñ
    [Grave], [Acute], [Circumflex], [Tilde], [Diaeresis],                                   // Ò Ó Ô Õ Ö
    [], [],                                                                                 // × Ø
    [Grave], [Acute], [Circumflex], [Diaeresis],                                            // Ù Ú Û Ü
    [Acute]                                                                                 // Ý
  ]

  /** Base letters of U+00C0..U+00DD, indexed from U+00C0. */
  function Latin1Base(i: int): AsciiUpper
    requires 0 <= i < 30
  {
    if i <= 6 then 'A' else if i == 7 then 'C' else if i <= 11 then 'E'
    else if i <= 15 then 'I' else if i <= 17 then 'N' else if i <= 24 then 'O'
    else if i <= 28 then 'U' else 'Y'
  }

  function Latin1Entry(i: int): Decomposition
    requires 0 <= i < 30
  {
    if i == 6 || i == 16 || i == 23 || i == 24 then Atomic
    else Composed(Latin1Base(i), Latin1Marks[i])
  }

  /** Marks of the decompositions of the upper-case letters U+1EA0, U+1EA2,
      ..., U+1EF8, indexed by half the offset from U+1EA0; the odd code
      point after each is its lower-case form with the same marks. */
  const VietnameseMarks: seq<seq<Mark>> := [
    [DotBelow], [HookAbove],                                                                // Ạ Ả
    [Circumflex, Acute], [Circumflex, Grave], [Circumflex, HookAbove], [Circumflex, Tilde],  // Ấ Ầ Ẩ Ẫ
    [DotBelow, Circumflex],                                                                 // Ậ
    [Breve, Acute], [Breve, Grave], [Breve, HookAbove], [Breve, Tilde],                     // Ắ Ằ Ẳ Ẵ
    [DotBelow, Breve],                                                                      // Ặ
    [DotBelow], [HookAbove], [Tilde],                                                       // Ẹ Ẻ Ẽ
    [Circumflex, Acute], [Circumflex, Grave], [Circumflex, HookAbove], [Circumflex, Tilde],  // Ế Ề Ể Ễ
    [DotBelow, Circumflex],                                                                 // Ệ
    [HookAbove], [DotBelow],                                                                // Ỉ Ị
    [DotBelow], [HookAbove],                                                                // Ọ Ỏ
    [Circumflex, Acute], [Circumflex, Grave], [Circumflex, HookAbove], [Circumflex, Tilde],  // Ố Ồ Ổ Ỗ
    [DotBelow, Circumflex],                                                                 // Ộ
    [Horn, Acute], [Horn, Grave], [Horn, HookAbove], [Horn, Tilde],                         // Ớ Ờ Ở Ỡ
    [Horn, DotBelow],                                                                       // Ợ
    [DotBelow], [HookAbove],                                                                // Ụ Ủ
    [Horn, Acute], [Horn, Grave], [Horn, HookAbove], [Horn, Tilde],                         // Ứ Ừ Ử Ữ
    [Horn, DotBelow],                                                                       // Ự
    [Grave], [DotBelow], [HookAbove], [Tilde]                                               // Ỳ Ỵ Ỷ Ỹ
  ]

  /** Base letters of U+1EA0, U+1EA2, ..., U+1EF8. */
  function VietnameseBase(k: int): AsciiUpper
    requires 0 <= k < 45
  {
    if k <= 11 then 'A' else if k <= 19 then 'E' else if k <= 21 then 'I'
    else if k <= 33 then 'O' else if k <= 40 then 'U' else 'Y'
  }

  /** Ă, Ĩ, Ũ, Ơ, Ư (and, one code point up, their lower-case forms). */
  function ExtendedEntry(upper: char): Decomposition {
    if upper == '\U{0102}' then Composed('A', [Breve])
    else if upper == '\U{0128}' then Composed('I', [Tilde])
    else if upper == '\U{0168}' then Composed('U', [Tilde])
    else if upper == '\U{01A0}' then Composed('O', [Horn])
    else if upper == '\U{01AF}' then Composed('U', [Horn])
    else Atomic
  }

  /** The table entry that governs `c`, and whether `c` is the lower-case
      member of its pair. */
  function EntryOf(c: char): (Decomposition, bool) {
    if '\U{00C0}' <= c <= '\U{00DD}' then (Latin1Entry(c as int - 0xC0), false)
    else if '\U{00E0}' <= c <= '\U{00FD}' then (Latin1Entry(c as int - 0xE0), true)
    else if c == '\U{00FF}' then (Composed('Y', [Diaeresis]), true)
    else if c == '\U{0102}' || c == '\U{0128}' || c == '\U{0168}' || c == '\U{01A0}' || c == '\U{01AF}' then
      (ExtendedEntry(c), false)
    else if c == '\U{0103}' || c == '\U{0129}' || c == '\U{0169}' || c == '\U{01A1}' || c == '\U{01B0}' then
      (ExtendedEntry((c as int - 1) as char), true)
    else if '\U{1EA0}' <= c <= '\U{1EF9}' then
      var k := (c as int - 0x1EA0) / 2;
      (Composed(VietnameseBase(k), VietnameseMarks[k]), (c as int) % 2 == 1)
    else (Atomic, false)
  }

  /** The canonical decomposition of one character. */
  function Decompose(c: char): (d: string)
    ensures |d| > 0
  {
    match EntryOf(c)
    case (Atomic, _) => [c]
    case (Composed(b, m), lower) => [if lower then LowerChar(b) else b] + m
  }

  /** `s.normalize("NFD")`, without canonical reordering of marks: every
      mark is removed right afterwards, so their order never matters here. */
  function Nfd(s: string): (r: string)
    ensures |r| >= |s|
  {
    if s == [] then [] else Decompose(s[0]) + Nfd(s[1..])
  }

  /** `s.replace(/[̀-ͯ]/g, "")`. */
  function StripMarks(s: string): (r: string)
    ensures |r| <= |s|
    ensures forall k :: 0 <= k < |r| ==> !IsCombiningMark(r[k])
  {
    if s == [] then []
    else if IsCombiningMark(s[0]) then StripMarks(s[1..])
    else [s[0]] + StripMarks(s[1..])
  }

  /** `s.replace(/from/g, to)` for a one-character pattern. */
  function ReplaceChar(s: string, from: char, to: char): (r: string)
    ensures |r| == |s|
    ensures forall k :: 0 <= k < |s| ==> r[k] == if s[k] == from then to else s[k]
  {
    seq(|s|, k requires 0 <= k < |s| => if s[k] == from then to else s[k])
  }

  /** The `normalize` helper of the accent-insensitive filters: NFD, strip
      the marks, `đ` to `d`, `Đ` to `D`, lower-case. What it yields holds
      no combining mark, no `đ`/`Đ` and no upper-case letter. */
  function Normalize(s: string): (r: string)
    ensures forall k :: 0 <= k < |r| ==>
              !IsCombiningMark(r[k]) && r[k] != '\U{0110}' && r[k] != '\U{0111}'
    ensures forall k :: 0 <= k < |r| ==> !('A' <= r[k] <= 'Z') && !IsLatin1Upper(r[k]) && !IsPairedUpper(r[k])
  {
    var y := ReplaceChar(ReplaceChar(StripMarks(Nfd(s)), '\U{0111}', 'd'), '\U{0110}', 'D');
    assert forall k :: 0 <= k < |y| ==> !IsCombiningMark(y[k]) && y[k] != '\U{0110}' && y[k] != '\U{0111}';
    Lower(y)
  }

  // ---------------------------------------------------------------------
  // Substring containment
  // ---------------------------------------------------------------------

  predicate OccursAt(s: string, t: string, i: nat) {
    i + |t| <= |s| && s[i..i + |t|] == t
  }

  /** `s.includes(t)`: only a string at most as long can occur. */
  predicate Contains(s: string, t: string)
    ensures Contains(s, t) ==> |t| <= |s|
  {
    exists i: nat | i <= |s| :: OccursAt(s, t, i)
  }

  lemma ContainsEmpty(s: string)
    ensures Contains(s, "")
  {
    assert OccursAt(s, "", 0);
  }

  lemma ContainsMiddle(p: string, t: string, q: string)
    ensures Contains(p + t + q, t)
  {
    assert (p + t + q)[|p|..|p| + |t|] == t;
    assert OccursAt(p + t + q, t, |p|);
  }

  /** What `Contains` gives back: a split of `s` around `t`. */
  lemma ContainsSplit(s: string, t: string) returns (p: string, q: string)
    requires Contains(s, t)
    ensures s == p + t + q
  {
    var i: nat :| i <= |s| && OccursAt(s, t, i);
    p, q := s[..i], s[i + |t|..];
    assert s == s[..i] + s[i..i + |t|] + s[i + |t|..];
  }

  // ---------------------------------------------------------------------
  // Properties of Normalize
  // ---------------------------------------------------------------------

  lemma {:induction false} NfdAppend(a: string, b: string)
    ensures Nfd(a + b) == Nfd(a) + Nfd(b)
  {
    if a != [] {
      var d := Decompose(a[0]);
      assert (a + b)[0] == a[0] && (a + b)[1..] == a[1..] + b;
      NfdAppend(a[1..], b);
      calc {
        Nfd(a + b);
        d + Nfd(a[1..] + b);
        d + (Nfd(a[1..]) + Nfd(b));
        (d + Nfd(a[1..])) + Nfd(b);
        Nfd(a) + Nfd(b);
      }
    } else {
      assert a + b == b;
    }
  }

  lemma {:induction false} StripMarksAppend(a: string, b: string)
    ensures StripMarks(a + b) == StripMarks(a) + StripMarks(b)
  {
    if a != [] {
      assert (a + b)[1..] == a[1..] + b;
      StripMarksAppend(a[1..], b);
    } else {
      assert a + b == b;
    }
  }

  lemma ReplaceCharAppend(a: string, b: string, from: char, to: char)
    ensures ReplaceChar(a + b, from, to) == ReplaceChar(a, from, to) + ReplaceChar(b, from, to)
  {
  }

  /** Normalising a concatenation normalises each part. */
  lemma NormalizeAppend(a: string, b: string)
    ensures Normalize(a + b) == Normalize(a) + Normalize(b)
  {
    NfdAppend(a, b);
    StripMarksAppend(Nfd(a), Nfd(b));
    var x, y := StripMarks(Nfd(a)), StripMarks(Nfd(b));
    ReplaceCharAppend(x, y, '\U{0111}', 'd');
    var x', y' := ReplaceChar(x, '\U{0111}', 'd'), ReplaceChar(y, '\U{0111}', 'd');
    ReplaceCharAppend(x', y', '\U{0110}', 'D');
    LowerAppend(ReplaceChar(x', '\U{0110}', 'D'), ReplaceChar(y', '\U{0110}', 'D'));
  }

  /** The letter a character decomposes to, before its marks. */
  function BaseLetter(c: char): char {
    Decompose(c)[0]
  }

  /** The character a non-mark normalises to. */
  function Folded(c: char): char {
    var b := BaseLetter(c);
    LowerChar(if b == '\U{0111}' then 'd' else if b == '\U{0110}' then 'D' else b)
  }

  lemma {:induction false} StripOnlyMarks(m: string)
    requires forall k :: 0 <= k < |m| ==> IsCombiningMark(m[k])
    ensures StripMarks(m) == []
  {
    if m != [] {
      StripOnlyMarks(m[1..]);
    }
  }

  /** A decomposition is a base letter followed by marks only, and the base
      is a mark exactly when the character itself is. */
  lemma DecomposeShape(c: char)
    ensures forall k :: 1 <= k < |Decompose(c)| ==> IsCombiningMark(Decompose(c)[k])
    ensures IsCombiningMark(BaseLetter(c)) <==> IsCombiningMark(c)
  {
    if IsCombiningMark(c) {
      assert EntryOf(c).0 == Atomic;
    }
    match EntryOf(c)
    case (Atomic, _) =>
    case (Composed(b, m), lower) =>
      assert Decompose(c) == [if lower then LowerChar(b) else b] + m;
  }

  lemma StripDecompose(c: char)
    ensures StripMarks(Decompose(c)) == if IsCombiningMark(c) then [] else [BaseLetter(c)]
  {
    var d := Decompose(c);
    DecomposeShape(c);
    assert d == [d[0]] + d[1..];
    StripMarksAppend([d[0]], d[1..]);
    StripOnlyMarks(d[1..]);
  }

  /** A single character normalises to nothing if it is a combining mark and
      to the one character `Folded(c)` otherwise. */
  lemma NormalizeChar(c: char)
    ensures Normalize([c]) == if IsCombiningMark(c) then [] else [Folded(c)]
  {
    assert [c][1..] == [];
    assert Nfd([c]) == Decompose(c);
    StripDecompose(c);
  }

  lemma FoldedLatin1(c: char)
    requires IsLatin1Upper(c)
    ensures Folded(LowerChar(c)) == Folded(c)
  {
    if c != '\U{00DE}' {
      assert EntryOf(LowerChar(c)).0 == EntryOf(c).0;
    }
  }

  lemma FoldedVietnamese(c: char)
    requires '\U{1EA0}' <= c <= '\U{1EF8}' && (c as int) % 2 == 0
    ensures Folded(LowerChar(c)) == Folded(c)
  {
    var k := (c as int - 0x1EA0) / 2;
    assert c as int == 0x1EA0 + 2 * k;
    assert LowerChar(c) as int == 0x1EA0 + 2 * k + 1;
    assert (LowerChar(c) as int - 0x1EA0) / 2 == k;
    assert BaseLetter(c) == VietnameseBase(k);
    assert BaseLetter(LowerChar(c)) == LowerChar(VietnameseBase(k));
  }

  lemma FoldedExtended(c: char)
    requires IsPairedUpper(c) && c < '\U{1EA0}'
    ensures Folded(LowerChar(c)) == Folded(c)
  {
  }

  /** Lower-casing a character first does not change what it normalises to. */
  lemma FoldedLowerChar(c: char)
    ensures Folded(LowerChar(c)) == Folded(c)
  {
    if IsLatin1Upper(c) {
      FoldedLatin1(c);
    } else if IsPairedUpper(c) {
      if c < '\U{1EA0}' {
        FoldedExtended(c);
      } else {
        FoldedVietnamese(c);
      }
    }
  }

  lemma LowerCharMark(c: char)
    ensures IsCombiningMark(LowerChar(c)) <==> IsCombiningMark(c)
  {
  }

  /** Normalisation already lower-cases: lower-casing first changes nothing. */
  lemma {:induction false} NormalizeLower(s: string)
    ensures Normalize(Lower(s)) == Normalize(s)
  {
    if s != [] {
      assert s == [s[0]] + s[1..];
      LowerAppend([s[0]], s[1..]);
      assert Lower([s[0]]) == [LowerChar(s[0])];
      NormalizeAppend([LowerChar(s[0])], Lower(s[1..]));
      NormalizeAppend([s[0]], s[1..]);
      NormalizeChar(s[0]);
      NormalizeChar(LowerChar(s[0]));
      LowerCharMark(s[0]);
      FoldedLowerChar(s[0]);
      NormalizeLower(s[1..]);
    }
  }

  /** Normalisation maps containment to containment. */
  lemma NormalizeKeepsContainment(s: string, t: string)
    requires Contains(s, t)
    ensures Contains(Normalize(s), Normalize(t))
  {
    var p, q := ContainsSplit(s, t);
    NormalizeAppend(p + t, q);
    NormalizeAppend(p, t);
    ContainsMiddle(Normalize(p), Normalize(t), Normalize(q));
  }

  /** Normalising character by character. */
  lemma NormalizeCons(c: char, s: string)
    ensures Normalize([c] + s) == (if IsCombiningMark(c) then [] else [Folded(c)]) + Normalize(s)
  {
    NormalizeAppend([c], s);
    NormalizeChar(c);
  }
}
