/** Natural ("human") ordering of names, as every script of the repository
    computes it. A name is cut with a capturing regular-expression split on
    digit runs into maximal runs of non-digits and of digits; digit runs
    become integers and text runs are lowercased. The scripts write the
    digit class as `\d` or as `[0-9]`, which agree on ASCII input. Keys are
    compared as Python compares lists, and Python's `sorted` is stable. */
module NaturalSort {
  import opened Base

  datatype Seg = Txt(text: string) | Num(n: nat)

  type Key = seq<Seg>

  // ---------------------------------------------------------------------
  // re.split(r'(\d+)', s)

  /** Where the text run starting at `i` ends: the first digit at or after
      `i`, or the end of `s`. */
  function TextEnd(s: string, i: nat): (n: nat)
    requires i <= |s|
    ensures i <= n <= |s|
    ensures forall k :: i <= k < n ==> !IsDigit(s[k])
    ensures n == |s| || IsDigit(s[n])
    decreases |s| - i
  {
    if i == |s| || IsDigit(s[i]) then i else TextEnd(s, i + 1)
  }

  /** Where the digit run starting at `i` ends. */
  function DigitEnd(s: string, i: nat): (n: nat)
    requires i <= |s|
    ensures i <= n <= |s|
    ensures forall k :: i <= k < n ==> IsDigit(s[k])
    ensures n == |s| || !IsDigit(s[n])
    decreases |s| - i
  {
    if i == |s| || !IsDigit(s[i]) then i else DigitEnd(s, i + 1)
  }

  lemma {:induction false} TextEndUnique(s: string, i: nat, n: nat)
    requires i <= n <= |s|
    requires forall k :: i <= k < n ==> !IsDigit(s[k])
    requires n == |s| || IsDigit(s[n])
    ensures TextEnd(s, i) == n
    decreases n - i
  {
    if i < n { TextEndUnique(s, i + 1, n); }
  }

  lemma {:induction false} DigitEndUnique(s: string, i: nat, n: nat)
    requires i <= n <= |s|
    requires forall k :: i <= k < n ==> IsDigit(s[k])
    requires n == |s| || !IsDigit(s[n])
    ensures DigitEnd(s, i) == n
    decreases n - i
  {
    if i < n { DigitEndUnique(s, i + 1, n); }
  }

  function Concat(parts: seq<string>): string
  {
    if parts == [] then [] else parts[0] + Concat(parts[1..])
  }

  ghost predicate RunShaped(parts: seq<string>)
    decreases |parts|
  {
    && parts != []
    && NoDigits(parts[0])
    && (|parts| > 1 ==>
          && |parts| >= 3
          && parts[1] != [] && AllDigits(parts[1])
          && (|parts| > 3 ==> parts[2] != [])
          && RunShaped(parts[2..]))
  }

  ghost predicate IsRunSplit(parts: seq<string>, s: string)
  {
    RunShaped(parts) && Concat(parts) == s
  }

  /** A text run and a digit run put in front of a run split. */
  lemma RunSplitCons(parts: seq<string>, a: string, b: string, tail: seq<string>)
    requires parts == [a, b] + tail
    requires NoDigits(a) && b != [] && AllDigits(b)
    requires RunShaped(tail) && (|tail| > 1 ==> tail[0] != [])
    ensures RunShaped(parts)
    ensures Concat(parts) == a + b + Concat(tail)
  {
    assert parts[2..] == tail;
    assert parts[1..][1..] == tail;
  }

  /** One step of the split: the text run from `i`, the digit run after it,
      and the split of what follows. */
  lemma SplitStep(s: string, i: nat, t: nat, e: nat, tail: seq<string>, parts: seq<string>)
    requires i <= t < e <= |s|
    requires forall k :: i <= k < t ==> !IsDigit(s[k])
    requires forall k :: t <= k < e ==> IsDigit(s[k])
    requires e == |s| || !IsDigit(s[e])
    requires IsRunSplit(tail, s[e..])
    requires |tail| == 1 <==> (forall k :: e <= k < |s| ==> !IsDigit(s[k]))
    requires e < |s| ==> tail[0] != []
    requires parts == [s[i..t], s[t..e]] + tail
    ensures IsRunSplit(parts, s[i..])
  {
    assert NoDigits(s[i..t]) by {
      forall j | 0 <= j < t - i ensures !IsDigit(s[i..t][j]) { assert s[i..t][j] == s[i + j]; }
    }
    assert AllDigits(s[t..e]) by {
      forall j | 0 <= j < e - t ensures IsDigit(s[t..e][j]) { assert s[t..e][j] == s[t + j]; }
    }
    RunSplitCons(parts, s[i..t], s[t..e], tail);
    assert s[i..] == s[i..t] + s[t..e] + s[e..];
  }

  /** The split of the suffix `s[i..]`. */
  function SplitFrom(s: string, i: nat): (parts: seq<string>)
    requires i <= |s|
    ensures IsRunSplit(parts, s[i..])
    ensures |parts| == 1 <==> (forall k :: i <= k < |s| ==> !IsDigit(s[k]))
    ensures i < |s| && !IsDigit(s[i]) ==> parts[0] != []
    decreases |s| - i
  {
    var t := TextEnd(s, i);
    if t == |s| then
      assert Concat([s[i..]]) == s[i..] + Concat([]);
      assert NoDigits(s[i..]) by {
        forall j | 0 <= j < |s| - i ensures !IsDigit(s[i..][j]) { assert s[i..][j] == s[i + j]; }
      }
      [s[i..]]
    else
      var e := DigitEnd(s, t);
      var tail := SplitFrom(s, e);
      var parts := [s[i..t], s[t..e]] + tail;
      SplitStep(s, i, t, e, tail, parts);
      parts
  }

  lemma ConcatCons2(a: string, b: string, tail: seq<string>)
    ensures Concat([a, b] + tail) == a + b + Concat(tail)
  {
    var parts := [a, b] + tail;
    assert parts[1..] == [b] + tail;
    assert (parts[1..])[1..] == tail;
  }

  /** The first character of a non-empty run split is the first character
      of its first non-empty part. */
  lemma FirstCharOfTail(tail: seq<string>, r: string)
    requires IsRunSplit(tail, r) && r != []
    requires |tail| > 1 ==> tail[0] != []
    ensures !IsDigit(r[0])
  {
    if |tail| == 1 {
      assert Concat(tail) == tail[0] + Concat([]);
    } else {
      assert Concat(tail) == tail[0] + Concat(tail[1..]);
      assert r[0] == tail[0][0];
    }
  }

  /** Only one list is a run split of a given string. */
  lemma {:induction false} RunSplitUnique(parts: seq<string>, s: string, i: nat)
    requires i <= |s|
    requires IsRunSplit(parts, s[i..])
    ensures parts == SplitFrom(s, i)
    decreases |parts|
  {
    if |parts| == 1 {
      RunSplitSingle(parts, s, i);
    } else {
      var t := i + |parts[0]|;
      var e := t + |parts[1]|;
      RunSplitHead(parts, s, i, t, e);
      RunSplitUnique(parts[2..], s, e);
      assert parts == [s[i..t], s[t..e]] + parts[2..];
    }
  }

  lemma RunSplitSingle(parts: seq<string>, s: string, i: nat)
    requires i <= |s| && IsRunSplit(parts, s[i..]) && |parts| == 1
    ensures parts == SplitFrom(s, i)
  {
    var a := parts[0];
    assert Concat(parts) == a + Concat([]);
    forall k | i <= k < |s| ensures !IsDigit(s[k]) { assert s[k] == a[k - i]; }
    TextEndUnique(s, i, |s|);
    assert a == s[i..];
    assert parts == [a];
  }

  /** The first two parts of a run split are the text run and the digit run
      at the front; the rest is a run split of what follows them. */
  lemma RunSplitHead(parts: seq<string>, s: string, i: nat, t: nat, e: nat)
    requires i <= |s| && IsRunSplit(parts, s[i..]) && |parts| > 1
    requires t == i + |parts[0]| && e == t + |parts[1]|
    ensures t < e <= |s| && TextEnd(s, i) == t && DigitEnd(s, t) == e
    ensures parts[0] == s[i..t] && parts[1] == s[t..e]
    ensures IsRunSplit(parts[2..], s[e..])
  {
    var a, b, tail := parts[0], parts[1], parts[2..];
    assert parts == [a, b] + tail;
    ConcatCons2(a, b, tail);
    assert s[i..] == a + b + Concat(tail);
    assert s[i..t] == a && s[t..e] == b && s[e..] == Concat(tail);
    forall k | i <= k < t ensures !IsDigit(s[k]) { assert s[k] == s[i..t][k - i]; }
    forall k | t <= k < e ensures IsDigit(s[k]) { assert s[k] == s[t..e][k - t]; }
    TextEndUnique(s, i, t);
    if e < |s| {
      FirstCharOfTail(tail, s[e..]);
      assert s[e] == s[e..][0];
    }
    DigitEndUnique(s, t, e);
  }

  /** The split of `s` on maximal digit runs: a list of one element exactly
      when `s` has no digit. */
  function SplitRuns(s: string): (parts: seq<string>)
    ensures IsRunSplit(parts, s)
    ensures |parts| == 1 <==> NoDigits(s)
  {
    assert s[0..] == s;
    SplitFrom(s, 0)
  }

  // ---------------------------------------------------------------------
  // The key

  /** One list element of the key: an integer for an all-digit run, the
      lowercased text otherwise (Python's `isdigit` is false on ""). */
  function SegOf(part: string): Seg
  {
    if part != [] && AllDigits(part) then Num(DigitsValue(part)) else Txt(LowerAll(part))
  }

  predicate IsText(seg: Seg)
  {
    seg.Txt? && NoDigits(seg.text) && NoUpper(seg.text)
  }

  /** The shape every key has: lowercase digit-free text, then — if the key
      goes on — an integer followed by the same shape again; text between two
      integers is never empty. */
  ghost predicate WellShaped(k: Key)
    decreases |k|
  {
    && k != []
    && IsText(k[0])
    && (|k| > 1 ==>
          && |k| >= 3
          && k[1].Num?
          && (|k| > 3 ==> k[2] != Txt([]))
          && WellShaped(k[2..]))
  }

  function SegsOf(parts: seq<string>): (k: Key)
    ensures |k| == |parts|
    ensures forall i :: 0 <= i < |parts| ==> k[i] == SegOf(parts[i])
  {
    seq(|parts|, i requires 0 <= i < |parts| => SegOf(parts[i]))
  }

  lemma {:induction false} SegsOfRunShaped(parts: seq<string>)
    requires RunShaped(parts)
    ensures WellShaped(SegsOf(parts))
    decreases |parts|
  {
    var k := SegsOf(parts);
    if parts[0] != [] { assert !IsDigit(parts[0][0]); }
    if |parts| > 1 {
      assert k[2..] == SegsOf(parts[2..]);
      if |parts| > 3 { assert !IsDigit(parts[2][0]); }
      SegsOfRunShaped(parts[2..]);
    }
  }

  /** The natural-sort key of a name. */
  function NaturalKey(s: string): (k: Key)
    ensures WellShaped(k)
  {
    var parts := SplitRuns(s);
    SegsOfRunShaped(parts);
    SegsOf(parts)
  }

  /** Keys alternate: text at even positions, integers at odd ones, an odd
      number of elements, and every text lowercase and free of digits. */
  lemma {:induction false} KeyAlternates(k: Key)
    requires WellShaped(k)
    ensures |k| % 2 == 1
    ensures forall i :: 0 <= i < |k| ==> (k[i].Txt? <==> i % 2 == 0)
    ensures forall i :: 0 <= i < |k| && k[i].Txt? ==> IsText(k[i])
    decreases |k|
  {
    if |k| > 1 {
      var rest := k[2..];
      KeyAlternates(rest);
      forall i | 2 <= i < |k| ensures k[i] == rest[i - 2] && (i % 2 == (i - 2) % 2) {}
    }
  }

  /** `parts` spells the key `k`: each text run lowercases to the key's
      text, and each digit run reads as the key's integer. */
  ghost predicate Spells(parts: seq<string>, k: Key)
  {
    && |parts| == |k|
    && (forall i :: 0 <= i < |k| && k[i].Txt? ==> LowerAll(parts[i]) == k[i].text)
    && (forall i :: 0 <= i < |k| && k[i].Num? ==>
          parts[i] != [] && AllDigits(parts[i]) && DigitsValue(parts[i]) == k[i].n)
  }

  /** The runs of a name spell its key. */
  lemma SplitSpellsKey(s: string)
    ensures Spells(SplitRuns(s), NaturalKey(s))
  {
    var parts := SplitRuns(s);
    var k := NaturalKey(s);
    forall i | 0 <= i < |k| && k[i].Txt?
      ensures LowerAll(parts[i]) == k[i].text
    {
      assert k[i] == SegOf(parts[i]);
    }
    forall i | 0 <= i < |k| && k[i].Num?
      ensures parts[i] != [] && AllDigits(parts[i]) && DigitsValue(parts[i]) == k[i].n
    {
      assert k[i] == SegOf(parts[i]);
    }
  }

  lemma LowerAllNoDigits(p: string)
    requires NoDigits(LowerAll(p))
    ensures NoDigits(p)
  {
    forall j | 0 <= j < |p| ensures !IsDigit(p[j]) {
      assert LowerAll(p)[j] == Lower(p[j]);
    }
  }

  lemma {:induction false} SpellingIsRunShaped(parts: seq<string>, k: Key)
    requires WellShaped(k) && Spells(parts, k)
    ensures RunShaped(parts)
    decreases |k|
  {
    LowerAllNoDigits(parts[0]);
    if |k| > 1 {
      assert |LowerAll(parts[2])| == |parts[2]|;
      SpellingIsRunShaped(parts[2..], k[2..]);
    }
  }

  /** Any spelling of a well-shaped key — any letter case in the text runs,
      any number of leading zeros in the digit runs — has exactly that key.
      With SplitSpellsKey this says two names have equal keys iff they
      differ only in letter case and in leading zeros. */
  lemma KeyOfSpelling(parts: seq<string>, k: Key)
    requires WellShaped(k) && Spells(parts, k)
    ensures NaturalKey(Concat(parts)) == k
  {
    var s := Concat(parts);
    SpellingIsRunShaped(parts, k);
    assert s[0..] == s;
    RunSplitUnique(parts, s, 0);
    assert SplitRuns(s) == parts;
    KeyAlternates(k);
    forall i | 0 <= i < |k| ensures SegOf(parts[i]) == k[i] {
      SegOfSpelling(parts[i], k[i]);
    }
    assert SegsOf(parts) == k;
  }

  /** One run spelling one key element reads back as that element. */
  lemma SegOfSpelling(part: string, seg: Seg)
    requires seg.Txt? ==> IsText(seg) && LowerAll(part) == seg.text
    requires seg.Num? ==> part != [] && AllDigits(part) && DigitsValue(part) == seg.n
    ensures SegOf(part) == seg
  {
    if seg.Txt? {
      LowerAllNoDigits(part);
      if part != [] { assert !IsDigit(part[0]); }
    }
  }

  /** The key of a name such as "img7": text, integer, empty tail text. */
  function ImgKey(n: nat): (k: Key)
    ensures WellShaped(k)
  {
    var k := [Txt("img"), Num(n), Txt("")];
    assert k[2..] == [Txt("")];
    k
  }

  lemma ConcatThree(a: string, b: string, c: string)
    ensures Concat([a, b, c]) == a + b + c
  {
    ConcatCons2(a, b, [c]);
    assert Concat([c]) == c + Concat([]);
  }

  /** KeyOfSpelling for a key of three elements. */
  lemma KeyOfThree(a: string, b: string, c: string, k: Key)
    requires WellShaped(k) && Spells([a, b, c], k)
    ensures NaturalKey(a + b + c) == k
  {
    KeyOfSpelling([a, b, c], k);
    ConcatThree(a, b, c);
  }

  lemma ImgSpelling(n: nat)
    ensures Spells(["img", NatToString(n), ""], ImgKey(n))
  {
    assert LowerAll("img") == "img";
    NatToStringRoundTrip(n);
  }

  /** The key of "img" followed by a number. */
  lemma ImgNameKey(n: nat)
    ensures NaturalKey("img" + NatToString(n)) == ImgKey(n)
  {
    ImgSpelling(n);
    KeyOfThree("img", NatToString(n), "", ImgKey(n));
    assert "img" + NatToString(n) + "" == "img" + NatToString(n);
  }

  lemma Img07Spelling()
    ensures Spells(["IMG", "07", ""], ImgKey(7))
  {
    assert LowerAll("IMG") == "img";
    assert DigitsValue("07") == 7;
  }

  lemma Img07Key()
    ensures NaturalKey("IMG07") == ImgKey(7)
  {
    Img07Spelling();
    KeyOfThree("IMG", "07", "", ImgKey(7));
    assert "IMG" + "07" + "" == "IMG07";
  }

  /** The key of a literal name "img" + digits, for the examples below. */
  lemma ImgLiteralKey(name: string, digits: string, n: nat)
    requires digits == NatToString(n) && name == "img" + digits
    ensures NaturalKey(name) == ImgKey(n)
  {
    ImgNameKey(n);
  }

  /** "IMG07" and "img7" have the same key: case and leading zeros are
      invisible to the ordering. */
  lemma CaseAndZerosInvisible()
    ensures NaturalKey("IMG07") == ImgKey(7)
    ensures NaturalKey("img7") == ImgKey(7)
  {
    Img07Key();
    assert NatToString(7) == "7";
    ImgLiteralKey("img7", "7", 7);
  }

  /** Names that differ only in their number compare by the number's value. */
  lemma ImgKeyLess(m: nat, n: nat)
    ensures KeyLess(ImgKey(m), ImgKey(n)) <==> m < n
  {
    var a, b := ImgKey(m), ImgKey(n);
    assert a[1..] == [Num(m), Txt("")] && b[1..] == [Num(n), Txt("")];
    assert KeyLess(a, b) == LexLess(a[1..], b[1..], SegLess);
    if m == n {
      LexIrreflexive(a, SegLess);
    } else {
      assert LexLess(a[1..], b[1..], SegLess) == SegLess(Num(m), Num(n));
    }
  }

  /** "img2" sorts before "img10" although it is the greater string.
      The literals arrive as parameters fixed by the precondition, so the
      verifier does not unfold the key functions on literal strings; the
      lemma speaks of these values only. */
  lemma NumbersCompareByValue(two: string, ten: string)
    requires two == "img2" && ten == "img10"
    ensures KeyLess(NaturalKey(two), NaturalKey(ten))
    ensures LexLess(ten, two, CharLess)
  {
    TwoAndTenKeys(two, ten);
    ImgKeyLess(2, 10);
    TenBeforeTwo(two, ten, "2", "10");
  }

  lemma TenBeforeTwo(two: string, ten: string, d2: string, d10: string)
    requires d2 == "2" && d10 == "10" && two == "img" + d2 && ten == "img" + d10
    ensures LexLess(ten, two, CharLess)
  {
    LexLessCommonPrefix("img", d10, d2, CharLess);
    assert d10[0] == '1' && d2[0] == '2';
  }

  lemma {:induction false} LexLessCommonPrefix<T>(p: seq<T>, a: seq<T>, b: seq<T>, less: (T, T) -> bool)
    ensures LexLess(p + a, p + b, less) == LexLess(a, b, less)
    decreases |p|
  {
    if p != [] {
      assert (p + a)[0] == (p + b)[0];
      assert (p + a)[1..] == p[1..] + a && (p + b)[1..] == p[1..] + b;
      LexLessCommonPrefix(p[1..], a, b, less);
    } else {
      assert p + a == a && p + b == b;
    }
  }

  lemma TwoAndTenKeys(two: string, ten: string)
    requires two == "img2" && ten == "img10"
    ensures NaturalKey(two) == ImgKey(2) && NaturalKey(ten) == ImgKey(10)
  {
    assert NatToString(2) == "2";
    ImgLiteralKey(two, "2", 2);
    assert NatToString(10) == "10";
    ImgLiteralKey(ten, "10", 10);
  }

  // ---------------------------------------------------------------------
  // Python's comparison of lists (and of strings)

  /** Python's `a < b` on lists: decided at the first unequal element, a
      proper prefix being smaller. */
  function LexLess<T(==)>(a: seq<T>, b: seq<T>, less: (T, T) -> bool): bool
  {
    if |a| == 0 || |b| == 0 then |a| < |b|
    else if a[0] == b[0] then LexLess(a[1..], b[1..], less)
    else less(a[0], b[0])
  }

  ghost predicate StrictTotalOrder<T(!new)>(less: (T, T) -> bool)
  {
    && (forall x :: !less(x, x))
    && (forall x, y, z :: less(x, y) && less(y, z) ==> less(x, z))
    && (forall x, y :: x != y ==> less(x, y) || less(y, x))
  }

  lemma {:induction false} LexIrreflexive<T>(a: seq<T>, less: (T, T) -> bool)
    ensures !LexLess(a, a, less)
    decreases |a|
  {
    if |a| > 0 {
      LexIrreflexive(a[1..], less);
    }
  }

  lemma {:induction false} LexTransitive<T(!new)>(a: seq<T>, b: seq<T>, c: seq<T>, less: (T, T) -> bool)
    requires StrictTotalOrder(less)
    requires LexLess(a, b, less) && LexLess(b, c, less)
    ensures LexLess(a, c, less)
    decreases |a|
  {
    if |a| > 0 && |c| > 0 && a[0] == b[0] && b[0] == c[0] {
      LexTransitive(a[1..], b[1..], c[1..], less);
    }
  }

  lemma {:induction false} LexConnected<T(!new)>(a: seq<T>, b: seq<T>, less: (T, T) -> bool)
    requires StrictTotalOrder(less)
    requires a != b
    ensures LexLess(a, b, less) || LexLess(b, a, less)
    decreases |a|
  {
    if |a| > 0 && |b| > 0 && a[0] == b[0] {
      assert a == [a[0]] + a[1..] && b == [b[0]] + b[1..];
      LexConnected(a[1..], b[1..], less);
    }
  }

  lemma LexStrictTotalOrder<T(!new)>(less: (T, T) -> bool)
    requires StrictTotalOrder(less)
    ensures StrictTotalOrder((a: seq<T>, b: seq<T>) => LexLess(a, b, less))
  {
    forall a: seq<T> ensures !LexLess(a, a, less) { LexIrreflexive(a, less); }
    forall a: seq<T>, b: seq<T>, c: seq<T> | LexLess(a, b, less) && LexLess(b, c, less)
      ensures LexLess(a, c, less)
    {
      LexTransitive(a, b, c, less);
    }
    forall a: seq<T>, b: seq<T> | a != b ensures LexLess(a, b, less) || LexLess(b, a, less) {
      LexConnected(a, b, less);
    }
  }

  function CharLess(a: char, b: char): bool { a < b }

  /** Python's `<` on two key elements. Keys never put text and an integer
      at the same position (KeysAligned), so the mixed cases, where Python
      would raise TypeError, are never consulted; they are ordered here only
      to make the relation total. */
  function SegLess(a: Seg, b: Seg): bool
  {
    match (a, b)
    case (Num(m), Num(n)) => m < n
    case (Txt(s), Txt(t)) => LexLess(s, t, CharLess)
    case (Num(_), Txt(_)) => true
    case (Txt(_), Num(_)) => false
  }

  function KeyLess(a: Key, b: Key): bool
  {
    LexLess(a, b, SegLess)
  }

  /** Keys of any two names agree, position by position, on whether they
      hold text or an integer, so Python never compares a str with an int. */
  lemma KeysAligned(s: string, t: string)
    ensures forall i :: 0 <= i < |NaturalKey(s)| && i < |NaturalKey(t)| ==>
              (NaturalKey(s)[i].Txt? <==> NaturalKey(t)[i].Txt?)
  {
    KeyAlternates(NaturalKey(s));
    KeyAlternates(NaturalKey(t));
  }

  lemma SegLessIsStrictTotalOrder()
    ensures StrictTotalOrder(SegLess)
  {
    assert StrictTotalOrder(CharLess);
    LexStrictTotalOrder(CharLess);
    forall x: Seg, y: Seg, z: Seg | SegLess(x, y) && SegLess(y, z) ensures SegLess(x, z) {
      if x.Txt? && y.Txt? && z.Txt? {
        LexTransitive(x.text, y.text, z.text, CharLess);
      }
    }
    forall x: Seg ensures !SegLess(x, x) {
      if x.Txt? { LexIrreflexive(x.text, CharLess); }
    }
    forall x: Seg, y: Seg | x != y ensures SegLess(x, y) || SegLess(y, x) {
      if x.Txt? && y.Txt? { LexConnected(x.text, y.text, CharLess); }
    }
  }

  /** The order keys are sorted by is a strict total order. */
  lemma KeyLessIsStrictTotalOrder()
    ensures forall a: Key :: !KeyLess(a, a)
    ensures forall a: Key, b: Key, c: Key :: KeyLess(a, b) && KeyLess(b, c) ==> KeyLess(a, c)
    ensures forall a: Key, b: Key :: a != b ==> KeyLess(a, b) || KeyLess(b, a)
  {
    SegLessIsStrictTotalOrder();
    forall a: Key ensures !KeyLess(a, a) { LexIrreflexive(a, SegLess); }
    forall a: Key, b: Key, c: Key | KeyLess(a, b) && KeyLess(b, c) ensures KeyLess(a, c) {
      LexTransitive(a, b, c, SegLess);
    }
    forall a: Key, b: Key | a != b ensures KeyLess(a, b) || KeyLess(b, a) {
      LexConnected(a, b, SegLess);
    }
  }

  // ---------------------------------------------------------------------
  // sorted(xs, key=natural_sort_key)

  predicate InOrder<T>(x: T, y: T, key: T -> Key)
  {
    !KeyLess(key(y), key(x))
  }

  ghost predicate SortedBy<T>(s: seq<T>, key: T -> Key)
  {
    forall i, j :: 0 <= i < j < |s| ==> InOrder(s[i], s[j], key)
  }

  /** Places `x` after every element whose key is not greater. */
  function Insert<T(==)>(sorted: seq<T>, x: T, key: T -> Key): (r: seq<T>)
    ensures multiset(r) == multiset(sorted) + multiset{x}
  {
    if sorted == [] then [x]
    else if KeyLess(key(x), key(sorted[0])) then [x] + sorted
    else
      assert sorted == [sorted[0]] + sorted[1..];
      [sorted[0]] + Insert(sorted[1..], x, key)
  }

  lemma {:induction false} InsertSorted<T>(sorted: seq<T>, x: T, key: T -> Key)
    requires SortedBy(sorted, key)
    ensures SortedBy(Insert(sorted, x, key), key)
    decreases |sorted|
  {
    if sorted != [] {
      var s0 := sorted[0];
      if KeyLess(key(x), key(s0)) {
        // x goes first: nothing in `sorted` is below s0, so nothing is below x.
        SegLessIsStrictTotalOrder();
        var r := [x] + sorted;
        forall j | 0 < j < |r| ensures InOrder(x, r[j], key) {
          assert r[j] == sorted[j - 1];
          if j > 1 { assert InOrder(s0, sorted[j - 1], key); }
          if KeyLess(key(r[j]), key(x)) {
            LexTransitive(key(r[j]), key(x), key(s0), SegLess);
            if j == 1 { LexIrreflexive(key(s0), SegLess); }
          }
        }
      } else {
        var rest := Insert(sorted[1..], x, key);
        InsertSorted(sorted[1..], x, key);
        var r := [s0] + rest;
        forall j | 0 < j < |r| ensures InOrder(s0, r[j], key) {
          assert r[j] in multiset(rest);
          assert r[j] in multiset(sorted[1..]) || r[j] == x;
          if r[j] != x {
            var m :| 0 <= m < |sorted[1..]| && sorted[1..][m] == r[j];
            assert sorted[m + 1] == r[j];
          }
        }
      }
    }
  }

  /** Python's `sorted(xs, key=...)` with the natural key: a stable insertion
      sort. The result is a permutation of `xs` in natural order. */
  function SortBy<T(==)>(xs: seq<T>, key: T -> Key): (r: seq<T>)
    ensures multiset(r) == multiset(xs)
    ensures |r| == |xs|
    ensures SortedBy(r, key)
  {
    if xs == [] then []
    else
      var init := xs[..|xs| - 1];
      var last := xs[|xs| - 1];
      assert xs == init + [last];
      var sortedInit := SortBy(init, key);
      InsertSorted(sortedInit, last, key);
      var r := Insert(sortedInit, last, key);
      assert multiset(r) == multiset(init) + multiset{last};
      assert |r| == |multiset(r)| == |multiset(xs)|;
      r
  }

  /** The elements of `s` whose key is `k`, in order. */
  function WithKey<T>(s: seq<T>, key: T -> Key, k: Key): seq<T>
  {
    if s == [] then []
    else (if key(s[0]) == k then [s[0]] else []) + WithKey(s[1..], key, k)
  }

  lemma {:induction false} WithKeyAppend<T>(a: seq<T>, b: seq<T>, key: T -> Key, k: Key)
    ensures WithKey(a + b, key, k) == WithKey(a, key, k) + WithKey(b, key, k)
    decreases |a|
  {
    if a != [] {
      assert (a + b)[0] == a[0];
      assert (a + b)[1..] == a[1..] + b;
      WithKeyAppend(a[1..], b, key, k);
    } else {
      assert a + b == b;
    }
  }

  lemma WithKeySingle<T>(x: T, key: T -> Key, k: Key)
    ensures WithKey([x], key, k) == if key(x) == k then [x] else []
  {
    assert [x][1..] == [];
  }

  /** When x sorts before every element, inserting it in front keeps the
      elements with key `k` in the same relative order as appending it. */
  lemma InsertFrontWithKey<T>(sorted: seq<T>, x: T, key: T -> Key, k: Key)
    requires SortedBy(sorted, key) && sorted != []
    requires KeyLess(key(x), key(sorted[0]))
    ensures WithKey([x] + sorted, key, k)
         == WithKey(sorted, key, k) + (if key(x) == k then [x] else [])
  {
    WithKeyAppend([x], sorted, key, k);
    WithKeySingle(x, key, k);
    if key(x) == k {
      forall i | 0 <= i < |sorted| ensures key(sorted[i]) != k {
        if i == 0 {
          LexIrreflexive(k, SegLess);
        } else {
          assert InOrder(sorted[0], sorted[i], key);
        }
      }
      WithKeyNone(sorted, key, k);
    }
  }

  lemma {:induction false} InsertWithKey<T>(sorted: seq<T>, x: T, key: T -> Key, k: Key)
    requires SortedBy(sorted, key)
    ensures WithKey(Insert(sorted, x, key), key, k)
         == WithKey(sorted, key, k) + (if key(x) == k then [x] else [])
    decreases |sorted|
  {
    if sorted == [] {
      WithKeySingle(x, key, k);
    } else if KeyLess(key(x), key(sorted[0])) {
      InsertFrontWithKey(sorted, x, key, k);
    } else {
      var s0 := sorted[0];
      var rest := sorted[1..];
      assert sorted == [s0] + rest;
      assert SortedBy(rest, key);
      InsertWithKey(rest, x, key, k);
      WithKeyAppend([s0], Insert(rest, x, key), key, k);
      WithKeyAppend([s0], rest, key, k);
    }
  }

  lemma {:induction false} WithKeyNone<T>(s: seq<T>, key: T -> Key, k: Key)
    requires forall i :: 0 <= i < |s| ==> key(s[i]) != k
    ensures WithKey(s, key, k) == []
    decreases |s|
  {
    if s != [] {
      WithKeyNone(s[1..], key, k);
    }
  }

  /** The sort is stable: names with equal keys keep their listing order. */
  lemma {:induction false} SortStable<T>(xs: seq<T>, key: T -> Key, k: Key)
    ensures WithKey(SortBy(xs, key), key, k) == WithKey(xs, key, k)
    decreases |xs|
  {
    if xs != [] {
      var init := xs[..|xs| - 1];
      var last := xs[|xs| - 1];
      assert xs == init + [last];
      SortStable(init, key, k);
      InsertWithKey(SortBy(init, key), last, key, k);
      WithKeyAppend(init, [last], key, k);
    }
  }

  /** Two lists in natural order holding the same elements, no two of which
      share a key, are equal: when keys are distinct the sort has only one
      possible result. */
  lemma {:induction false} SortedUnique<T>(a: seq<T>, b: seq<T>, key: T -> Key)
    requires multiset(a) == multiset(b)
    requires SortedBy(a, key) && SortedBy(b, key)
    requires forall i, j :: 0 <= i < j < |a| ==> key(a[i]) != key(a[j])
    ensures a == b
    decreases |a|
  {
    assert |a| == |multiset(a)| == |multiset(b)| == |b|;
    if a != [] {
      SortedHeadsEqual(a, b, key);
      MultisetTails(a, b);
      SortedTail(a, key);
      SortedTail(b, key);
      DistinctTail(a, key);
      SortedUnique(a[1..], b[1..], key);
      assert a == [a[0]] + a[1..] && b == [b[0]] + b[1..];
    }
  }

  lemma MultisetTails<T>(a: seq<T>, b: seq<T>)
    requires a != [] && b != [] && a[0] == b[0] && multiset(a) == multiset(b)
    ensures multiset(a[1..]) == multiset(b[1..])
  {
    assert a == [a[0]] + a[1..] && b == [b[0]] + b[1..];
    assert multiset(a) == multiset{a[0]} + multiset(a[1..]);
    assert multiset(b) == multiset{a[0]} + multiset(b[1..]);
    assert multiset(a[1..]) == multiset(a) - multiset{a[0]} == multiset(b[1..]);
  }

  lemma SortedTail<T>(s: seq<T>, key: T -> Key)
    requires s != [] && SortedBy(s, key)
    ensures SortedBy(s[1..], key)
  {
    var t := s[1..];
    assert forall i :: 0 <= i < |t| ==> t[i] == s[i + 1];
  }

  lemma DistinctTail<T>(s: seq<T>, key: T -> Key)
    requires s != []
    requires forall i, j :: 0 <= i < j < |s| ==> key(s[i]) != key(s[j])
    ensures forall i, j :: 0 <= i < j < |s[1..]| ==> key(s[1..][i]) != key(s[1..][j])
  {
    var t := s[1..];
    assert forall i :: 0 <= i < |t| ==> t[i] == s[i + 1];
  }

  lemma SortedHeadsEqual<T>(a: seq<T>, b: seq<T>, key: T -> Key)
    requires a != [] && b != [] && multiset(a) == multiset(b)
    requires SortedBy(a, key) && SortedBy(b, key)
    requires forall i, j :: 0 <= i < j < |a| ==> key(a[i]) != key(a[j])
    ensures a[0] == b[0]
  {
    var x, y := a[0], b[0];
    if x != y {
      assert y in multiset(a) && x in multiset(b);
      var m :| 0 <= m < |a| && a[m] == y;
      var p :| 0 <= p < |b| && b[p] == x;
      assert InOrder(a[0], a[m], key) && InOrder(b[0], b[p], key);
      SegLessIsStrictTotalOrder();
      if key(x) != key(y) { LexConnected(key(x), key(y), SegLess); }
      assert false;
    }
  }

  function ImgName(n: nat): string { "img" + NatToString(n) }

  /** Three names "img<a>", "img<b>", "img<c>" with a < b < c, listed in
      reverse, sort into increasing numeric order. */
  lemma SortImgNames(a: nat, b: nat, c: nat)
    requires a < b < c
    ensures SortBy([ImgName(c), ImgName(b), ImgName(a)], NaturalKey)
         == [ImgName(a), ImgName(b), ImgName(c)]
  {
    var xs := [ImgName(c), ImgName(b), ImgName(a)];
    var ys := [ImgName(a), ImgName(b), ImgName(c)];
    ImgNamesSorted(a, b, c, ys);
    assert multiset(xs) == multiset(ys);
    SortedUnique(ys, SortBy(xs, NaturalKey), NaturalKey);
  }

  lemma ImgNamesSorted(a: nat, b: nat, c: nat, ys: seq<string>)
    requires a < b < c && ys == [ImgName(a), ImgName(b), ImgName(c)]
    ensures SortedBy(ys, NaturalKey)
    ensures forall i, j :: 0 <= i < j < |ys| ==> NaturalKey(ys[i]) != NaturalKey(ys[j])
  {
    ImgNamesOrdered(a, b);
    ImgNamesOrdered(a, c);
    ImgNamesOrdered(b, c);
    SortedThree(ys, NaturalKey);
  }

  lemma ImgNamesOrdered(m: nat, n: nat)
    requires m < n
    ensures InOrder(ImgName(m), ImgName(n), NaturalKey)
    ensures NaturalKey(ImgName(m)) != NaturalKey(ImgName(n))
  {
    ImgNameKey(m);
    ImgNameKey(n);
    ImgKeyLess(n, m);
    assert ImgKey(m)[1] != ImgKey(n)[1];
  }

  lemma SortedThree<T>(ys: seq<T>, key: T -> Key)
    requires |ys| == 3
    requires InOrder(ys[0], ys[1], key) && InOrder(ys[0], ys[2], key) && InOrder(ys[1], ys[2], key)
    requires key(ys[0]) != key(ys[1]) && key(ys[0]) != key(ys[2]) && key(ys[1]) != key(ys[2])
    ensures SortedBy(ys, key)
    ensures forall i, j :: 0 <= i < j < |ys| ==> key(ys[i]) != key(ys[j])
  {
  }

  lemma ImgNameLiteral(n: nat, digits: string)
    requires digits == NatToString(n)
    ensures ImgName(n) == "img" + digits
  {
  }

  /** Sorting "img10", "img2", "img1" gives "img1", "img2", "img10".
      The literals arrive as parameters fixed by the precondition, so the
      verifier does not unfold the key functions on literal strings; the
      lemma speaks of these values only. */
  lemma SortExample(xs: seq<string>)
    requires xs == ["img10", "img2", "img1"]
    ensures SortBy(xs, NaturalKey) == ["img1", "img2", "img10"]
  {
    ImgNameLiteral(1, "1");
    ImgNameLiteral(2, "2");
    ImgNameLiteral(10, "10");
    assert "img" + "1" == "img1" && "img" + "2" == "img2" && "img" + "10" == "img10";
    assert xs == [ImgName(10), ImgName(2), ImgName(1)];
    SortImgNames(1, 2, 10);
  }
}
