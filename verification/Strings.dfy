/** The lexicographic order of Rust strings (code points compare like their UTF-8 bytes). */
module StringOrder {

  predicate Less(a: string, b: string) {
    b != [] && (a == [] || a[0] < b[0] || (a[0] == b[0] && Less(a[1..], b[1..])))
  }

  /** A common beginning does not matter. */
  lemma {:induction false} LessAfterPrefix(p: string, a: string, b: string)
    ensures Less(p + a, p + b) <==> Less(a, b)
  {
    if p == [] {
      assert p + a == a && p + b == b;
    } else {
      LessAfterPrefix(p[1..], a, b);
      assert (p + a)[1..] == p[1..] + a && (p + b)[1..] == p[1..] + b;
    }
  }

  lemma {:induction false} LessIrreflexive(a: string)
    ensures !Less(a, a)
  {
    if a != [] { LessIrreflexive(a[1..]); }
  }

  lemma {:induction false} LessTransitive(a: string, b: string, c: string)
    requires Less(a, b) && Less(b, c)
    ensures Less(a, c)
  {
    if a != [] && a[0] == b[0] && b[0] == c[0] { LessTransitive(a[1..], b[1..], c[1..]); }
  }

  lemma {:induction false} LessTotal(a: string, b: string)
    ensures Less(a, b) || a == b || Less(b, a)
  {
    if a != [] && b != [] && a[0] == b[0] {
      LessTotal(a[1..], b[1..]);
      assert a == [a[0]] + a[1..] && b == [b[0]] + b[1..];
    }
  }
}

/** Strings can be sorted. */
module StringSorting {
  import opened Sequences
  import opened StringOrder

  lemma NotLessTransitive(a: string, b: string, c: string)
    requires !Less(b, a) && !Less(c, b)
    ensures !Less(c, a)
  {
    LessTotal(a, b);
    LessTotal(b, c);
    if Less(c, a) && Less(a, b) { LessTransitive(c, a, b); }
  }

  lemma LessIsOrder()
    ensures WeakOrder(Less)
  {
    forall a, b | Less(a, b) ensures !Less(b, a) {
      if Less(b, a) {
        LessTransitive(a, b, a);
        LessIrreflexive(a);
      }
    }
    forall a, b, c | !Less(b, a) && !Less(c, b) ensures !Less(c, a) { NotLessTransitive(a, b, c); }
  }
}

/** Decimal numerals and dotted names. */
module Text {
  import opened Wrappers

  const USIZE_MAX: nat := 0xFFFF_FFFF_FFFF_FFFF

  predicate IsDigit(c: char) { '0' <= c <= '9' }

  function Digit(d: nat): (c: char)
    requires d < 10
    ensures IsDigit(c) && c as int == '0' as int + d
  {
    '0' + d as char
  }

  function DigitValue(c: char): nat
    requires IsDigit(c)
  {
    c as int - '0' as int
  }

  predicate AllDigits(s: string) {
    forall i :: 0 <= i < |s| ==> IsDigit(s[i])
  }

  function Decimal(n: nat): (s: string)
    ensures s != [] && AllDigits(s)
  {
    if n < 10 then [Digit(n)] else Decimal(n / 10) + [Digit(n % 10)]
  }

  function DigitsValue(s: string): nat
    requires AllDigits(s)
  {
    if s == [] then 0 else DigitsValue(s[..|s| - 1]) * 10 + DigitValue(s[|s| - 1])
  }

  /** Reading back a printed number gives the number. */
  lemma {:induction false} DecimalRoundTrip(n: nat)
    ensures DigitsValue(Decimal(n)) == n
  {
    if n >= 10 {
      DecimalRoundTrip(n / 10);
      var s := Decimal(n);
      assert s[..|s| - 1] == Decimal(n / 10);
    } else {
      assert Decimal(n)[..0] == [];
    }
  }

  /** Parsing an unsigned word: an optional plus sign, then at least one digit, within range. */
  function ParseUsize(s: string): Option<nat> {
    var digits := if s != [] && s[0] == '+' then s[1..] else s;
    if digits != [] && AllDigits(digits) && DigitsValue(digits) <= USIZE_MAX
    then Some(DigitsValue(digits)) else None
  }

  lemma ParseDecimal(n: nat)
    requires n <= USIZE_MAX
    ensures ParseUsize(Decimal(n)) == Some(n)
  {
    DecimalRoundTrip(n);
    assert IsDigit(Decimal(n)[0]);
  }

  /** The last dot of a string splits it in only one way. */
  lemma LastDot(a: string, x: string, b: string, y: string)
    requires a + ['.'] + x == b + ['.'] + y && '.' !in x && '.' !in y
    ensures a == b && x == y
  {
    var s, t := a + ['.'] + x, b + ['.'] + y;
    assert s[|a|] == '.' && t[|b|] == '.';
    assert |a| == |b|;
    assert a == s[..|a|] && b == t[..|b|];
    assert x == s[|a| + 1..] && y == t[|b| + 1..];
  }

  predicate DotFree(s: string) { '.' !in s }

  /** The segments joined by dots. */
  function Join(p: seq<string>): string
    requires p != []
  {
    if |p| == 1 then p[0] else p[0] + ['.'] + Join(p[1..])
  }

  /** The segments between dots; there is always at least one. */
  function Split(s: string): (p: seq<string>)
    ensures p != []
  {
    if s == [] then [[]] else
      var rest := Split(s[1..]);
      if s[0] == '.' then [[]] + rest else [[s[0]] + rest[0]] + rest[1..]
  }

  lemma {:induction false} SplitFirst(a: string, s: string)
    requires DotFree(a)
    ensures Split(a + ['.'] + s) == [a] + Split(s)
  {
    var t := a + ['.'] + s;
    if a == [] {
      assert t[1..] == s;
    } else {
      assert t[1..] == a[1..] + ['.'] + s;
      SplitFirst(a[1..], s);
      assert a == [a[0]] + a[1..];
    }
  }

  lemma {:induction false} SplitOne(a: string)
    requires DotFree(a)
    ensures Split(a) == [a]
  {
    if a != [] {
      SplitOne(a[1..]);
      assert a == [a[0]] + a[1..];
    }
  }

  /** Splitting undoes joining of dot-free segments, so distinct paths have distinct dotted names. */
  lemma {:induction false} SplitJoin(p: seq<string>)
    requires p != [] && forall i :: 0 <= i < |p| ==> DotFree(p[i])
    ensures Split(Join(p)) == p
  {
    if |p| == 1 {
      SplitOne(p[0]);
    } else {
      SplitJoin(p[1..]);
      SplitFirst(p[0], Join(p[1..]));
    }
  }

  lemma JoinPrepend(c: char, p: seq<string>)
    requires p != []
    ensures Join([[c] + p[0]] + p[1..]) == [c] + Join(p)
  {
    var q := [[c] + p[0]] + p[1..];
    assert q[1..] == p[1..];
    if |p| > 1 {
      var rest := Join(p[1..]);
      assert ([c] + p[0]) + ['.'] + rest == [c] + (p[0] + ['.'] + rest);
    }
  }

  lemma JoinEmptyFirst(p: seq<string>)
    requires p != []
    ensures Join([[]] + p) == ['.'] + Join(p)
  {
    assert ([[]] + p)[1..] == p;
    assert [] + ['.'] + Join(p) == ['.'] + Join(p);
  }

  /** Joining undoes splitting, and splitting leaves no dots. */
  lemma {:induction false} JoinSplit(s: string)
    ensures Join(Split(s)) == s && forall i :: 0 <= i < |Split(s)| ==> DotFree(Split(s)[i])
  {
    if s != [] {
      JoinSplit(s[1..]);
      JoinPrepend(s[0], Split(s[1..]));
      JoinEmptyFirst(Split(s[1..]));
      assert s == [s[0]] + s[1..];
    }
  }

  /** Segments survive joining and splitting exactly when none of them holds a dot. */
  lemma SplitJoinExactly(p: seq<string>)
    requires p != []
    ensures Split(Join(p)) == p <==> forall i :: 0 <= i < |p| ==> DotFree(p[i])
  {
    JoinSplit(Join(p));
    if forall i :: 0 <= i < |p| ==> DotFree(p[i]) { SplitJoin(p); }
  }

  lemma NoDotInDecimal(n: nat)
    ensures '.' !in Decimal(n)
  {
  }

  predicate StartsWith(s: string, prefix: string) {
    |prefix| <= |s| && s[..|prefix|] == prefix
  }

  predicate EndsWith(s: string, suffix: string) {
    |suffix| <= |s| && s[|s| - |suffix|..] == suffix
  }

  function StripPrefix(s: string, prefix: string): Option<string> {
    if StartsWith(s, prefix) then Some(s[|prefix|..]) else None
  }

  function StripSuffix(s: string, suffix: string): Option<string> {
    if EndsWith(s, suffix) then Some(s[..|s| - |suffix|]) else None
  }

  /** The Unicode White_Space property. */
  predicate IsWhitespace(c: char) {
    || '\t' <= c <= '\r' || c == ' ' || c == '\U{85}' || c == '\U{A0}' || c == '\U{1680}'
    || '\U{2000}' <= c <= '\U{200A}' || c == '\U{2028}' || c == '\U{2029}' || c == '\U{202F}'
    || c == '\U{205F}' || c == '\U{3000}'
  }

  /** Trimming leaves the string as it is. */
  predicate Trimmed(s: string) {
    s != [] ==> !IsWhitespace(s[0]) && !IsWhitespace(s[|s| - 1])
  }

  predicate IsControl(c: char) {
    c <= '\U{1F}' || '\U{7F}' <= c <= '\U{9F}'
  }

  function Utf8Length(s: string): nat {
    if s == [] then 0 else
      var width := if s[0] <= '\U{7F}' then 1 else if s[0] <= '\U{7FF}' then 2 else if s[0] <= '\U{FFFF}' then 3 else 4;
      width + Utf8Length(s[1..])
  }

  /** The length in bytes counts each character by the range its code point is in, and adds up. */
  lemma {:induction false} Utf8AddsUp(s: string, t: string)
    ensures Utf8Length(s + t) == Utf8Length(s) + Utf8Length(t)
    ensures |s| == 1 ==> var c := s[0] as int;
              Utf8Length(s) == if c < 0x80 then 1 else if c < 0x800 then 2 else if c < 0x1_0000 then 3 else 4
  {
    if s == [] {
      assert s + t == t;
    } else {
      assert (s + t)[1..] == s[1..] + t;
      Utf8AddsUp(s[1..], t);
    }
  }
}

/** Exact `${secret:KEY}` and `${file:PATH}` configuration references. */
module ConfigReferences {
  import opened Wrappers
  import opened Text

  datatype ConfigReference = Secret(key: string) | File(path: string)

  /** The text between `${` and `}`. */
  function Expression(value: string): Option<string> {
    match StripPrefix(value, "${")
    case None => None
    case Some(rest) => StripSuffix(rest, "}")
  }

  predicate WellFormed(text: string) { text != [] && Trimmed(text) }

  function ParseExpression(expression: string): Option<ConfigReference> {
    match StripPrefix(expression, "secret:")
    case Some(key) => if WellFormed(key) then Some(Secret(key)) else None
    case None =>
      match StripPrefix(expression, "file:")
      case None => None
      case Some(path) => if WellFormed(path) then Some(File(path)) else None
  }

  function ParseConfigReference(value: string): Option<ConfigReference> {
    match Expression(value)
    case None => None
    case Some(expression) => ParseExpression(expression)
  }

  // ---------------------------------------------------------------- which texts are references

  function ShowExpression(ref: ConfigReference): string {
    match ref case Secret(key) => "secret:" + key case File(path) => "file:" + path
  }

  function Body(ref: ConfigReference): string {
    match ref case Secret(key) => key case File(path) => path
  }

  function Show(ref: ConfigReference): string {
    "${" + (ShowExpression(ref) + "}")
  }

  lemma PrefixStripped(s: string, prefix: string, rest: string)
    ensures StripPrefix(s, prefix) == Some(rest) <==> s == prefix + rest
  {
    assert (prefix + rest)[..|prefix|] == prefix && (prefix + rest)[|prefix|..] == rest;
    if StartsWith(s, prefix) { assert s == s[..|prefix|] + s[|prefix|..]; }
  }

  lemma SuffixStripped(s: string, rest: string, suffix: string)
    ensures StripSuffix(s, suffix) == Some(rest) <==> s == rest + suffix
  {
    assert (rest + suffix)[|rest|..] == suffix && (rest + suffix)[..|rest|] == rest;
    if EndsWith(s, suffix) { assert s == s[..|s| - |suffix|] + s[|s| - |suffix|..]; }
  }

  lemma ExpressionIsBetween(value: string, expression: string)
    ensures Expression(value) == Some(expression) <==> value == "${" + (expression + "}")
  {
    PrefixStripped(value, "${", expression + "}");
    SuffixStripped(expression + "}", expression, "}");
    if Expression(value).Some? {
      var rest := StripPrefix(value, "${").value;
      PrefixStripped(value, "${", rest);
      SuffixStripped(rest, Expression(value).value, "}");
    }
  }

  lemma NotBothSchemes(s: string)
    ensures !(StripPrefix(s, "secret:").Some? && StripPrefix(s, "file:").Some?)
  {
    if StripPrefix(s, "secret:").Some? {
      PrefixStripped(s, "secret:", StripPrefix(s, "secret:").value);
      assert s[0] == 's';
    }
    if StripPrefix(s, "file:").Some? {
      PrefixStripped(s, "file:", StripPrefix(s, "file:").value);
      assert s[0] == 'f';
    }
  }

  lemma ExpressionSyntax(expression: string, ref: ConfigReference)
    ensures ParseExpression(expression) == Some(ref) <==> WellFormed(Body(ref)) && expression == ShowExpression(ref)
  {
    NotBothSchemes(expression);
    match ref
    case Secret(key) => PrefixStripped(expression, "secret:", key);
    case File(path) => PrefixStripped(expression, "file:", path);
  }

  /**
    A text is a reference exactly when it is written out in full around a key or path that is not
    empty and has no white space at its ends.
    */
  lemma ReferenceSyntax(value: string, ref: ConfigReference)
    ensures ParseConfigReference(value) == Some(ref) <==>
            && value == "${" + ((if ref.Secret? then "secret:" + ref.key else "file:" + ref.path) + "}")
            && var text := if ref.Secret? then ref.key else ref.path;
               text != [] && !IsWhitespace(text[0]) && !IsWhitespace(text[|text| - 1])
  {
    ExpressionIsBetween(value, ShowExpression(ref));
    if Expression(value).Some? {
      ExpressionIsBetween(value, Expression(value).value);
      ExpressionSyntax(Expression(value).value, ref);
    }
    ExpressionSyntax(ShowExpression(ref), ref);
  }
}
