/** The parts of Go's strings and strconv packages that rule text passes through. */
module GoText {
  import opened Wrappers
  import GoInt

  const MAX_INT := 0x7FFF_FFFF_FFFF_FFFF
  const MIN_INT := -0x8000_0000_0000_0000

  // ----- Characters -----

  /** unicode.IsSpace. */
  predicate IsSpace(c: char) {
    || '\t' <= c <= '\r' || c == ' ' || c == '\U{0085}' || c == '\U{00A0}' || c == '\U{1680}'
    || '\U{2000}' <= c <= '\U{200A}' || c == '\U{2028}' || c == '\U{2029}' || c == '\U{202F}'
    || c == '\U{205F}' || c == '\U{3000}'
  }

  /**
   * unicode.ToUpper as far as it reaches ASCII: besides a to z, the dotless i and the long s become
   * ASCII letters. Letters whose capitals lie outside ASCII are left alone.
   */
  function UpperChar(c: char): char {
    if 'a' <= c <= 'z' then c - 'a' + 'A'
    else if c == '\U{0131}' then 'I'
    else if c == '\U{017F}' then 'S'
    else c
  }

  /** unicode.ToLower, likewise: the dotted capital I and the kelvin sign become ASCII letters. */
  function LowerChar(c: char): char {
    if 'A' <= c <= 'Z' then c - 'A' + 'a'
    else if c == '\U{0130}' then 'i'
    else if c == '\U{212A}' then 'k'
    else c
  }

  function ToUpper(s: string): (t: string)
    ensures |t| == |s|
  {
    seq(|s|, i requires 0 <= i < |s| => UpperChar(s[i]))
  }

  function ToLower(s: string): (t: string)
    ensures |t| == |s|
  {
    seq(|s|, i requires 0 <= i < |s| => LowerChar(s[i]))
  }

  /** A byte length: characters take one to four bytes in UTF-8. */
  function ByteLen(s: string): nat {
    if s == "" then 0
    else (if s[0] < '\U{0080}' then 1 else if s[0] < '\U{0800}' then 2
          else if s[0] < '\U{10000}' then 3 else 4) + ByteLen(s[1..])
  }

  /** EqualFold on a prefix with no k or s in it, where folding is the ASCII one. */
  predicate HasPrefixFold(s: string, prefix: string) {
    |s| >= |prefix| && forall i | 0 <= i < |prefix| :: UpperChar(s[i]) == prefix[i] && s[i] < '\U{0080}'
  }

  // ----- Trimming, cutting, splitting and joining -----

  function TrimLeft(s: string): string {
    if s != "" && IsSpace(s[0]) then TrimLeft(s[1..]) else s
  }

  function TrimRight(s: string): string {
    if s != "" && IsSpace(s[|s| - 1]) then TrimRight(s[..|s| - 1]) else s
  }

  function TrimSpace(s: string): string {
    TrimRight(TrimLeft(s))
  }

  /** strings.Cut: the text before and after the first separator, and whether there is one. */
  function Cut(s: string, sep: char): (string, string, bool) {
    if s == "" then ("", "", false)
    else if s[0] == sep then ("", s[1..], true)
    else var (before, after, found) := Cut(s[1..], sep); ([s[0]] + before, after, found)
  }

  function Split(s: string, sep: char): (parts: seq<string>)
    ensures |parts| >= 1
  {
    if s == "" then [""]
    else if s[0] == sep then [""] + Split(s[1..], sep)
    else var rest := Split(s[1..], sep); [[s[0]] + rest[0]] + rest[1..]
  }

  function Join(parts: seq<string>, sep: char): string {
    if |parts| == 0 then ""
    else if |parts| == 1 then parts[0]
    else parts[0] + [sep] + Join(parts[1..], sep)
  }

  lemma {:induction false} CutAtFirst(key: string, value: string, sep: char)
    requires sep !in key
    ensures Cut(key + [sep] + value, sep) == (key, value, true)
  {
    var s := key + [sep] + value;
    if key == "" {
      assert s[1..] == value;
    } else {
      assert s[1..] == key[1..] + [sep] + value;
      assert [key[0]] + key[1..] == key;
      CutAtFirst(key[1..], value, sep);
    }
  }

  lemma {:induction false} SplitWhole(s: string, sep: char)
    requires sep !in s
    ensures Split(s, sep) == [s]
  {
    if s != "" {
      assert [s[0]] + s[1..] == s;
      SplitWhole(s[1..], sep);
    }
  }

  lemma {:induction false} SplitAtFirst(part: string, rest: string, sep: char)
    requires sep !in part
    ensures Split(part + [sep] + rest, sep) == [part] + Split(rest, sep)
  {
    var s := part + [sep] + rest;
    if part == "" {
      assert s[1..] == rest;
    } else {
      assert s[1..] == part[1..] + [sep] + rest;
      assert [part[0]] + part[1..] == part;
      SplitAtFirst(part[1..], rest, sep);
    }
  }

  /** Splitting undoes joining when no part holds the separator. */
  lemma {:induction false} SplitJoin(parts: seq<string>, sep: char)
    requires |parts| >= 1
    requires forall i | 0 <= i < |parts| :: sep !in parts[i]
    ensures Split(Join(parts, sep), sep) == parts
  {
    if |parts| == 1 {
      SplitWhole(parts[0], sep);
    } else {
      SplitJoin(parts[1..], sep);
      SplitAtFirst(parts[0], Join(parts[1..], sep), sep);
    }
  }

  lemma {:induction false} JoinAcross(a: seq<string>, b: seq<string>, sep: char)
    requires a != [] && b != []
    ensures Join(a + b, sep) == Join(a, sep) + [sep] + Join(b, sep)
  {
    if |a| == 1 {
      assert (a + b)[1..] == b;
    } else {
      assert (a + b)[1..] == a[1..] + b;
      JoinAcross(a[1..], b, sep);
    }
  }

  lemma ExtendFirst(c: char, parts: seq<string>, more: seq<string>)
    requires parts != []
    ensures [[c] + (parts + more)[0]] + (parts + more)[1..] == ([[c] + parts[0]] + parts[1..]) + more
  {
  }

  lemma {:induction false} SplitAcross(s: string, t: string, sep: char)
    ensures Split(s + [sep] + t, sep) == Split(s, sep) + Split(t, sep)
  {
    var whole := s + [sep] + t;
    if s == "" {
      assert whole[1..] == t;
    } else {
      assert whole[1..] == s[1..] + [sep] + t;
      SplitAcross(s[1..], t, sep);
      var rest, after := Split(s[1..], sep), Split(t, sep);
      if s[0] == sep {
        assert Split(whole, sep) == [""] + (rest + after);
        assert Split(s, sep) == [""] + rest;
      } else {
        assert Split(whole, sep) == [[s[0]] + (rest + after)[0]] + (rest + after)[1..];
        assert Split(s, sep) == [[s[0]] + rest[0]] + rest[1..];
        ExtendFirst(s[0], rest, after);
      }
    }
  }

  /** Splitting loses nothing and leaves no separator behind. */
  lemma {:induction false} SplitMeans(s: string, sep: char)
    ensures Join(Split(s, sep), sep) == s
    ensures forall i | 0 <= i < |Split(s, sep)| :: sep !in Split(s, sep)[i]
  {
    if s != "" {
      SplitMeans(s[1..], sep);
      var rest := Split(s[1..], sep);
      if s[0] == sep {
        assert ([""] + rest)[1..] == rest;
        assert s == [sep] + s[1..];
      } else {
        assert ([[s[0]] + rest[0]] + rest[1..])[1..] == rest[1..];
        assert s == [s[0]] + s[1..];
      }
    }
  }

  /** Cutting takes the text before the first separator and all after it, or finds there is none. */
  lemma {:induction false} CutMeans(s: string, sep: char)
    ensures var (before, after, found) := Cut(s, sep);
            && (found <==> sep in s)
            && (found ==> s == before + [sep] + after && sep !in before)
  {
    if s != "" {
      assert s == [s[0]] + s[1..];
      if s[0] != sep {
        CutMeans(s[1..], sep);
      }
    }
  }

  lemma {:induction false} TrimLeftMeans(s: string) returns (left: string)
    ensures s == left + TrimLeft(s) && forall c | c in left :: IsSpace(c)
    ensures TrimLeft(s) != "" ==> !IsSpace(TrimLeft(s)[0])
  {
    hide IsSpace;
    left := "";
    if s != "" && IsSpace(s[0]) {
      var rest := TrimLeftMeans(s[1..]);
      left := [s[0]] + rest;
      assert s == [s[0]] + s[1..];
    }
  }

  lemma {:induction false} TrimRightMeans(s: string) returns (right: string)
    ensures s == TrimRight(s) + right && forall c | c in right :: IsSpace(c)
    ensures TrimRight(s) != "" ==> !IsSpace(TrimRight(s)[|TrimRight(s)| - 1]) && TrimRight(s)[0] == s[0]
  {
    hide IsSpace;
    right := "";
    if s != "" && IsSpace(s[|s| - 1]) {
      var rest := TrimRightMeans(s[..|s| - 1]);
      right := rest + [s[|s| - 1]];
      assert s == s[..|s| - 1] + [s[|s| - 1]];
    }
  }

  /** Trimming takes away exactly the white space at both ends. */
  lemma TrimMeans(s: string) returns (left: string, right: string)
    ensures s == left + TrimSpace(s) + right
    ensures forall c | c in left + right :: IsSpace(c)
    ensures var t := TrimSpace(s); t != "" ==> !IsSpace(t[0]) && !IsSpace(t[|t| - 1])
  {
    hide IsSpace, TrimLeft, TrimRight;
    left := TrimLeftMeans(s);
    right := TrimRightMeans(TrimLeft(s));
  }

  /** White space and letter case among ASCII characters. */
  lemma AsciiCharacters(c: char)
    requires c < '\U{0080}'
    ensures IsSpace(c) <==> c in {' ', '\t', '\n', '\U{000B}', '\U{000C}', '\r'}
    ensures UpperChar(c) as int == c as int - if 'a' <= c <= 'z' then 32 else 0
    ensures LowerChar(c) as int == c as int + if 'A' <= c <= 'Z' then 32 else 0
  {
  }

  // ----- Numbers -----

  function DigitChar(d: int): (c: char)
    requires 0 <= d <= 9
    ensures '0' <= c <= '9' && (c - '0') as int == d
  {
    '0' + d as char
  }

  function Digits(n: nat): (s: string)
    ensures |s| >= 1 && forall c | c in s :: '0' <= c <= '9'
  {
    if n < 10 then [DigitChar(n)] else Digits(n / 10) + [DigitChar(n % 10)]
  }

  /** strconv.Itoa, and what %d writes. */
  function Itoa(n: int): string {
    if n < 0 then "-" + Digits(-n) else Digits(n)
  }

  function DigitsValue(s: string): Option<int>
  {
    if s == "" then Some(0)
    else
      var c := s[|s| - 1];
      if !('0' <= c <= '9') then None
      else match DigitsValue(s[..|s| - 1])
        case None => None
        case Some(high) => Some(10 * high + (c - '0') as int)
  }

  /** strconv.Atoi: an optional sign, at least one digit and nothing else, within 64 bits. */
  function Atoi(s: string): Option<int> {
    var signed := s != "" && (s[0] == '-' || s[0] == '+');
    var digits := if signed then s[1..] else s;
    if digits == "" then None
    else match DigitsValue(digits)
      case None => None
      case Some(n) =>
        var value := if signed && s[0] == '-' then -n else n;
        if MIN_INT <= value <= MAX_INT then Some(value) else None
  }

  lemma {:induction false} DigitsReadBack(n: nat)
    ensures DigitsValue(Digits(n)) == Some(n)
  {
    if n >= 10 {
      DigitsReadBack(n / 10);
      var s := Digits(n);
      assert s[..|s| - 1] == Digits(n / 10);
    } else {
      assert Digits(n)[..0] == "";
    }
  }

  /** Reading a written number gives it back. */
  lemma AtoiItoa(n: int)
    requires MIN_INT <= n <= MAX_INT
    ensures Atoi(Itoa(n)) == Some(n)
  {
    hide Digits, DigitsValue;
    var digits := Digits(if n < 0 then -n else n);
    DigitsReadBack(if n < 0 then -n else n);
    assert digits[0] in digits;
    assert ("-" + digits)[1..] == digits;
  }

  function Zeros(n: nat): string {
    if n == 0 then "" else Zeros(n - 1) + "0"
  }

  lemma {:induction false} DigitsAreCanonical(n: nat)
    ensures Digits(n)[0] == '0' ==> n == 0
    ensures n == 0 ==> Digits(n) == "0"
  {
    if n >= 10 {
      DigitsAreCanonical(n / 10);
    }
  }

  /** Digits have a value exactly when they are a number's own digits with any zeros before them. */
  lemma {:induction false} DigitsMean(s: string) returns (zeros: nat)
    requires s != "" && DigitsValue(s).Some?
    ensures DigitsValue(s).value >= 0 && s == Zeros(zeros) + Digits(DigitsValue(s).value)
  {
    var front, c := s[..|s| - 1], s[|s| - 1];
    assert s == front + [c];
    if front == "" {
      zeros := 0;
    } else {
      zeros := DigitsMean(front);
      if DigitsValue(front).value == 0 {
        zeros := zeros + 1;
      }
    }
  }

  lemma {:induction false} ZerosAddNothing(zeros: nat, s: string)
    ensures DigitsValue(Zeros(zeros) + s) == DigitsValue(s)
    decreases zeros, |s|
  {
    var t := Zeros(zeros) + s;
    if s == "" {
      if zeros > 0 {
        assert t == Zeros(zeros - 1) + "0";
        assert t[..|t| - 1] == Zeros(zeros - 1) + "";
        ZerosAddNothing(zeros - 1, "");
      }
    } else {
      assert t[..|t| - 1] == Zeros(zeros) + s[..|s| - 1];
      ZerosAddNothing(zeros, s[..|s| - 1]);
    }
  }

  ghost predicate WritesNumber(s: string, n: int) {
    exists sign: string, zeros: nat ::
      && (if n < 0 then sign == "-" else if n > 0 then sign == "" || sign == "+" else sign in {"", "+", "-"})
      && s == sign + (Zeros(zeros) + Digits(GoInt.Abs(n)))
  }

  lemma AtoiReadsSigned(sign: string, zeros: nat, n: int)
    requires MIN_INT <= n <= MAX_INT
    requires if n < 0 then sign == "-" else if n > 0 then sign == "" || sign == "+" else sign in {"", "+", "-"}
    ensures Atoi(sign + (Zeros(zeros) + Digits(GoInt.Abs(n)))) == Some(n)
  {
    var body := Zeros(zeros) + Digits(GoInt.Abs(n));
    ZerosAddNothing(zeros, Digits(GoInt.Abs(n)));
    DigitsReadBack(GoInt.Abs(n));
    ZerosAreZeros(zeros);
    hide Digits, DigitsValue, Zeros;
    assert body != "" && '0' <= body[0] <= '9' by {
      if Zeros(zeros) == "" {
        assert body[0] == Digits(GoInt.Abs(n))[0] && Digits(GoInt.Abs(n))[0] in Digits(GoInt.Abs(n));
      } else {
        assert body[0] == Zeros(zeros)[0] && Zeros(zeros)[0] in Zeros(zeros);
      }
    }
    if sign != "" {
      assert |sign| == 1 && (sign + body)[1..] == body && (sign + body)[0] == sign[0];
    } else {
      assert sign + body == body;
    }
  }

  lemma {:induction false} ZerosAreZeros(zeros: nat)
    ensures forall c | c in Zeros(zeros) :: c == '0'
  {
    if zeros > 0 {
      ZerosAreZeros(zeros - 1);
    }
  }

  /** A number is read from exactly an optional sign, any zeros and its own digits, within 64 bits. */
  lemma AtoiMeans(s: string, n: int)
    ensures Atoi(s) == Some(n) <==> MIN_INT <= n <= MAX_INT && WritesNumber(s, n)
  {
    hide Digits, DigitsValue, Zeros;
    if Atoi(s) == Some(n) {
      if s[0] == '-' || s[0] == '+' {
        var zeros := DigitsMean(s[1..]);
        assert s == [s[0]] + s[1..];
        assert s == [s[0]] + (Zeros(zeros) + Digits(GoInt.Abs(n)));
      } else {
        var zeros := DigitsMean(s);
        assert s == "" + (Zeros(zeros) + Digits(GoInt.Abs(n)));
      }
    }
    if MIN_INT <= n <= MAX_INT && WritesNumber(s, n) {
      var sign: string, zeros: nat :|
        && (if n < 0 then sign == "-" else if n > 0 then sign == "" || sign == "+" else sign in {"", "+", "-"})
        && s == sign + (Zeros(zeros) + Digits(GoInt.Abs(n)));
      hide Atoi;
      AtoiReadsSigned(sign, zeros, n);
    }
  }

  /** Numbers are written most significant digit first, without zeros before them or a plus sign. */
  lemma ItoaSamples()
    ensures Itoa(0) == "0" && Itoa(7) == "7" && Itoa(-1) == "-1" && Itoa(29) == "29" && Itoa(105) == "105"
  {
  }

  // ----- Canonical text -----

  /** The characters canonical rule text is made of, other than its separators. */
  predicate PlainChar(c: char) {
    'A' <= c <= 'Z' || '0' <= c <= '9' || c == '-' || c == ','
  }

  predicate Plain(s: string) {
    forall i | 0 <= i < |s| :: PlainChar(s[i])
  }

  lemma PlainStays(s: string)
    requires Plain(s)
    ensures ToUpper(s) == s && TrimSpace(s) == s && ';' !in s && '=' !in s
  {
  }

  lemma TrimKeeps(s: string)
    requires s != "" && !IsSpace(s[0]) && !IsSpace(s[|s| - 1])
    ensures TrimSpace(s) == s
  {
  }

  lemma {:induction false} AsciiBytes(s: string)
    requires forall i | 0 <= i < |s| :: s[i] < '\U{0080}'
    ensures ByteLen(s) == |s|
  {
    if s != "" {
      AsciiBytes(s[1..]);
    }
  }

  lemma {:induction false} JoinPlain(parts: seq<string>, sep: char, ok: char -> bool)
    requires ok(sep) && forall i | 0 <= i < |parts| :: forall j | 0 <= j < |parts[i]| :: ok(parts[i][j])
    ensures forall j | 0 <= j < |Join(parts, sep)| :: ok(Join(parts, sep)[j])
  {
    if |parts| > 1 {
      JoinPlain(parts[1..], sep, ok);
    }
  }
}
