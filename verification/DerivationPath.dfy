/** Printing and parsing of key derivation paths such as m/44'/60'/0'/0. */
module DerivationPath {
  import opened Options

  const HARDENED: nat := 0x8000_0000
  const MAX_UINT32: nat := 0xFFFF_FFFF

  type uint32 = n: nat | n <= MAX_UINT32

  const DEFAULT_ROOT: seq<uint32> := [HARDENED + 44, HARDENED + 60, HARDENED, 0]

  // ---------------------------------------------------------------- printing

  function Digit(d: nat): char
    requires d < 10
  {
    '0' + d as char
  }

  /** Decimal notation. */
  function Decimal(n: nat): string {
    if n < 10 then [Digit(n)] else Decimal(n / 10) + [Digit(n % 10)]
  }

  function ShowComponent(c: uint32): string {
    if c >= HARDENED then Decimal(c - HARDENED) + "'" else Decimal(c)
  }

  /** The part of the printed path after its `m`. */
  function ShowTail(path: seq<uint32>): string {
    if path == [] then "" else "/" + ShowComponent(path[0]) + ShowTail(path[1..])
  }

  function Show(path: seq<uint32>): string {
    "m" + ShowTail(path)
  }

  lemma {:induction false} ShowTailAppend(path: seq<uint32>, c: uint32)
    ensures ShowTail(path + [c]) == ShowTail(path) + "/" + ShowComponent(c)
  {
    if path != [] {
      assert (path + [c])[1..] == path[1..] + [c];
      ShowTailAppend(path[1..], c);
    }
  }

  method String(path: seq<uint32>) returns (result: string)
    ensures result == Show(path)
  {
    hide Decimal;
    result := "m";
    for i := 0 to |path|
      invariant result == Show(path[..i])
    {
      assert path[..i + 1] == path[..i] + [path[i]];
      ShowTailAppend(path[..i], path[i]);
      var component: nat, hardened := path[i], false;
      if component >= HARDENED {
        component, hardened := component - HARDENED, true;
      }
      result := result + "/" + Decimal(component);
      if hardened {
        result := result + "'";
      }
    }
    assert path[..|path|] == path;
  }

  // ---------------------------------------------------------------- strings

  predicate IsSpace(c: char) {
    c in {'\t', '\n', '\U{0b}', '\U{0c}', '\r', ' ', '\U{85}', '\U{a0}', '\U{1680}', '\U{2028}', '\U{2029}',
          '\U{202f}', '\U{205f}', '\U{3000}'}
    || '\U{2000}' <= c <= '\U{200a}'
  }

  function TrimLeft(s: string): string {
    if s != [] && IsSpace(s[0]) then TrimLeft(s[1..]) else s
  }

  function TrimRight(s: string): string {
    if s != [] && IsSpace(s[|s| - 1]) then TrimRight(s[..|s| - 1]) else s
  }

  function TrimSpace(s: string): string {
    TrimRight(TrimLeft(s))
  }

  /** The pieces of `s` between separators; one empty piece if `s` is empty. */
  function Split(s: string, sep: char): (pieces: seq<string>)
    ensures pieces != []
  {
    if s == [] then [[]]
    else if s[0] == sep then [[]] + Split(s[1..], sep)
    else
      var rest := Split(s[1..], sep);
      [[s[0]] + rest[0]] + rest[1..]
  }

  lemma {:induction false} SplitAtSeparator(piece: string, rest: string, sep: char)
    requires sep !in piece
    ensures Split(piece + [sep] + rest, sep) == [piece] + Split(rest, sep)
    ensures Split(piece, sep) == [piece]
  {
    if piece == [] {
      assert [] + [sep] + rest == [sep] + rest;
    } else {
      SplitAtSeparator(piece[1..], rest, sep);
      assert (piece + [sep] + rest)[1..] == piece[1..] + [sep] + rest;
      assert [piece[0]] + piece[1..] == piece;
    }
  }

  // ---------------------------------------------------------------- integers

  /** The value of a digit or letter; characters that are neither exceed every base. */
  function DigitValue(c: char): nat {
    if '0' <= c <= '9' then (c - '0') as nat
    else if 'a' <= c <= 'z' then (c - 'a') as nat + 10
    else if 'A' <= c <= 'Z' then (c - 'A') as nat + 10
    else 64
  }

  /** What the digit scanner knows: digits seen, their value, whether the last
      character was an underscore or a digit, and whether an underscore was misplaced. */
  datatype Scan = Scan(count: nat, value: nat, prev: char, badSeparator: bool)

  /** The scanner after one more digit. */
  function Scanned(r: Scan, base: nat, c: char): Scan {
    Scan(r.count + 1, r.value * base + DigitValue(c), '0', r.badSeparator)
  }

  /** Scans digits of `base` and underscores; the remainder is what stopped it. */
  function ScanDigits(s: string, base: nat, st: Scan): (Scan, string) {
    if s == [] then (st, s)
    else if s[0] == '_' then
      ScanDigits(s[1..], base, Scan(st.count, st.value, '_', st.badSeparator || st.prev != '0'))
    else if DigitValue(s[0]) >= base then (st, s)
    else ScanDigits(s[1..], base, Scanned(st, base, s[0]))
  }

  /** An unsigned literal with an optional base prefix, all of `s`. */
  function ParseUnsigned(s: string): Option<nat> {
    var start := Scan(0, 0, '.', false);
    if s != [] && s[0] == '0' then
      if |s| == 1 then Some(0)
      else if s[1] in {'b', 'B'} then Complete(ScanDigits(s[2..], 2, start.(prev := '0')), false)
      else if s[1] in {'o', 'O'} then Complete(ScanDigits(s[2..], 8, start.(prev := '0')), false)
      else if s[1] in {'x', 'X'} then Complete(ScanDigits(s[2..], 16, start.(prev := '0')), false)
      else Complete(ScanDigits(s[1..], 8, start.(prev := '0')), true)
    else Complete(ScanDigits(s, 10, start), false)
  }

  /** A scan is a number if it consumed everything, saw a digit and no misplaced
      underscore; a lone octal prefix is zero. */
  function Complete(r: (Scan, string), octal: bool): Option<nat> {
    var (st, rest) := r;
    if rest != [] || st.badSeparator || st.prev == '_' then None
    else if st.count == 0 then (if octal then Some(0) else None)
    else Some(st.value)
  }

  function Signed(v: Option<nat>, negative: bool): Option<int> {
    match v
    case None => None
    case Some(n) =>
      var i: int := n;
      Some(if negative then -i else i)
  }

  function ParseInt(s: string): Option<int> {
    if s != [] && s[0] == '-' then Signed(ParseUnsigned(s[1..]), true)
    else if s != [] && s[0] == '+' then Signed(ParseUnsigned(s[1..]), false)
    else Signed(ParseUnsigned(s), false)
  }

  // ---------------------------------------------------------------- parsing

  datatype Error = Empty | Ambiguous | InvalidComponent | OutOfRange

  datatype Result<+T> = Ok(value: T) | Err(error: Error)

  function ParseComponent(raw: string): Result<uint32> {
    var component := TrimSpace(raw);
    var hardened := component != [] && component[|component| - 1] == '\'';
    var digits := if hardened then TrimSpace(component[..|component| - 1]) else component;
    var base: nat := if hardened then HARDENED else 0;
    match ParseInt(digits)
    case None => Err(InvalidComponent)
    case Some(v) => if v < 0 || v > MAX_UINT32 - base then Err(OutOfRange) else Ok(base + v)
  }

  function ParseComponents(pieces: seq<string>): Result<seq<uint32>> {
    if pieces == [] then Ok([]) else
    match ParseComponents(pieces[..|pieces| - 1])
    case Err(e) => Err(e)
    case Ok(init) =>
      match ParseComponent(pieces[|pieces| - 1])
      case Err(e) => Err(e)
      case Ok(c) => Ok(init + [c])
  }

  function Under(root: seq<uint32>, r: Result<seq<uint32>>): Result<seq<uint32>> {
    match r
    case Err(e) => Err(e)
    case Ok(cs) => Ok(root + cs)
  }

  function Parse(path: string): Result<seq<uint32>> {
    var pieces := Split(path, '/');
    var first := TrimSpace(pieces[0]);
    if first == "" then Err(Ambiguous)
    else if first == "m" then
      if |pieces| == 1 then Err(Empty) else ParseComponents(pieces[1..])
    else Under(DEFAULT_ROOT, ParseComponents(pieces))
  }

  /** The components parsed one by one and appended to `root`. */
  method AppendComponents(root: seq<uint32>, components: seq<string>) returns (r: Result<seq<uint32>>)
    ensures r == Under(root, ParseComponents(components))
  {
    hide ParseComponent;
    var result := root;
    assert components[..0] == [] && root + [] == root;
    for i := 0 to |components|
      invariant ParseComponents(components[..i]).Ok? && result == root + ParseComponents(components[..i]).value
    {
      assert components[..i + 1][..i] == components[..i];
      var c := ParseComponent(components[i]);
      if c.Err? {
        ErrorSticks(components, i + 1);
        return Err(c.error);
      }
      assert root + ParseComponents(components[..i]).value + [c.value] ==
                root + (ParseComponents(components[..i]).value + [c.value]);
      result := result + [c.value];
    }
    assert components[..|components|] == components;
    r := Ok(result);
  }

  method ParseDerivationPath(path: string) returns (r: Result<seq<uint32>>)
    ensures r == Parse(path)
  {
    hide ParseComponents, TrimSpace, Split;
    var components := Split(path, '/');
    var result: seq<uint32> := [];
    if TrimSpace(components[0]) == "" {
      return Err(Ambiguous);
    } else if TrimSpace(components[0]) == "m" {
      components := components[1..];
    } else {
      result := DEFAULT_ROOT;
    }
    if components == [] {
      return Err(Empty);
    }
    UnderNothing(ParseComponents(components));
    r := AppendComponents(result, components);
  }

  lemma UnderNothing(r: Result<seq<uint32>>)
    ensures Under([], r) == r
  {
    if r.Ok? {
      assert [] + r.value == r.value;
    }
  }

  lemma {:induction false} ErrorSticks(pieces: seq<string>, n: nat)
    requires n <= |pieces| && ParseComponents(pieces[..n]).Err?
    ensures ParseComponents(pieces) == ParseComponents(pieces[..n])
    decreases |pieces| - n
  {
    if n < |pieces| {
      assert pieces[..n + 1][..n] == pieces[..n];
      ErrorSticks(pieces, n + 1);
    } else {
      assert pieces[..n] == pieces;
    }
  }

  // ---------------------------------------------------------------- round trip

  predicate IsDigit(c: char) {
    '0' <= c <= '9'
  }

  lemma {:induction false} DecimalShape(n: nat)
    ensures Decimal(n) != [] && forall i :: 0 <= i < |Decimal(n)| ==> IsDigit(Decimal(n)[i])
    ensures n > 0 ==> Decimal(n)[0] != '0'
  {
    if n >= 10 {
      DecimalShape(n / 10);
    }
  }

  /** Scanning digits one after the other. */
  lemma {:induction false} ScanAppend(s: string, c: char, st: Scan)
    requires (forall i :: 0 <= i < |s| ==> IsDigit(s[i])) && IsDigit(c)
    ensures ScanDigits(s, 10, st).1 == []
    ensures var r := ScanDigits(s, 10, st).0;
            ScanDigits(s + [c], 10, st) == (Scan(r.count + 1, r.value * 10 + DigitValue(c), '0', r.badSeparator), [])
  {
    if s == [] {
      assert ([] + [c])[1..] == [];
    } else {
      var st' := Scan(st.count + 1, st.value * 10 + DigitValue(s[0]), '0', st.badSeparator);
      ScanAppend(s[1..], c, st');
      assert (s + [c])[1..] == s[1..] + [c];
    }
  }

  lemma {:induction false} ScanDecimal(n: nat)
    ensures var (r, rest) := ScanDigits(Decimal(n), 10, Scan(0, 0, '.', false));
            rest == [] && r.value == n && r.count > 0 && r.prev == '0' && !r.badSeparator
  {
    var start := Scan(0, 0, '.', false);
    if n < 10 {
      ScanAppend([], Digit(n), start);
      assert [] + [Digit(n)] == Decimal(n);
    } else {
      ScanDecimal(n / 10);
      DecimalShape(n / 10);
      ScanAppend(Decimal(n / 10), Digit(n % 10), start);
    }
  }

  lemma ParseDecimal(n: nat)
    ensures ParseInt(Decimal(n)) == Some(n)
  {
    DecimalShape(n);
    ScanDecimal(n);
    if n == 0 {
      assert Decimal(0) == ['0'];
    }
  }

  lemma TrimNothing(s: string)
    requires s != [] && !IsSpace(s[0]) && !IsSpace(s[|s| - 1])
    ensures TrimSpace(s) == s
  {
  }

  lemma ComponentRoundTrip(c: uint32)
    ensures ParseComponent(ShowComponent(c)) == Ok(c)
    ensures '/' !in ShowComponent(c)
  {
    var n: nat := if c >= HARDENED then c - HARDENED else c;
    DecimalShape(n);
    ParseDecimal(n);
    TrimNothing(Decimal(n));
    TrimNothing(ShowComponent(c));
    if c >= HARDENED {
      assert ShowComponent(c)[..|ShowComponent(c)| - 1] == Decimal(n);
    }
  }

  function Pieces(path: seq<uint32>): seq<string> {
    if path == [] then [] else [ShowComponent(path[0])] + Pieces(path[1..])
  }

  lemma {:induction false} SplitShown(piece: string, path: seq<uint32>)
    requires '/' !in piece
    ensures Split(piece + ShowTail(path), '/') == [piece] + Pieces(path)
    decreases |path|
  {
    hide Split, ShowComponent, ShowTail, ParseComponent;
    if path == [] {
      SplitAtSeparator(piece, "", '/');
      NoTail(piece);
    } else {
      var first := ShowComponent(path[0]);
      ComponentRoundTrip(path[0]);
      SplitAtSeparator(piece, first + ShowTail(path[1..]), '/');
      SplitShown(first, path[1..]);
      TailOf(piece, path);
      assert Pieces(path) == [first] + Pieces(path[1..]);
    }
  }

  lemma NoTail(piece: string)
    ensures piece + ShowTail([]) == piece
  {
  }

  lemma TailOf(piece: string, path: seq<uint32>)
    requires path != []
    ensures piece + ShowTail(path) == piece + ['/'] + (ShowComponent(path[0]) + ShowTail(path[1..]))
  {
    hide ShowComponent;
    var first, rest := ShowComponent(path[0]), ShowTail(path[1..]);
    assert ShowTail(path) == "/" + first + rest;
    Regroup(piece, "/", first, rest);
  }

  lemma Regroup(a: string, b: string, c: string, d: string)
    ensures a + (b + c + d) == a + b + (c + d)
  {
  }

  lemma {:induction false} PiecesAppend(path: seq<uint32>, c: uint32)
    ensures Pieces(path + [c]) == Pieces(path) + [ShowComponent(c)]
  {
    if path != [] {
      assert (path + [c])[1..] == path[1..] + [c];
      PiecesAppend(path[1..], c);
    }
  }

  lemma {:induction false} PiecesRoundTrip(path: seq<uint32>)
    ensures ParseComponents(Pieces(path)) == Ok(path)
  {
    if path != [] {
      var init, last := path[..|path| - 1], path[|path| - 1];
      assert path == init + [last];
      PiecesAppend(init, last);
      PiecesRoundTrip(init);
      ComponentRoundTrip(last);
      assert Pieces(path)[..|Pieces(path)| - 1] == Pieces(init);
    }
  }

  /** Parsing what was printed gives the path back, for every path but the empty one,
      which prints as a bare `m` that the parser rejects. */
  lemma RoundTrip(path: seq<uint32>)
    ensures Parse(Show(path)) == if path == [] then Err(Empty) else Ok(path)
  {
    SplitShown("m", path);
    PiecesRoundTrip(path);
    TrimNothing("m");
    assert ([['m']] + Pieces(path))[1..] == Pieces(path);
    if path != [] {
      assert |Pieces(path)| > 0;
    }
  }

  /** So printing is a normal form: whatever text parses to a path, the printed path
      parses to it too; a path is never empty; and text without `m` lands below the
      default root. */
  lemma PrintedIsNormalForm(text: string)
    ensures Parse(text).Ok? ==> Parse(text).value != [] && Parse(Show(Parse(text).value)) == Parse(text)
    ensures Parse(text).Ok? && TrimSpace(Split(text, '/')[0]) != "m" ==> DEFAULT_ROOT < Parse(text).value
  {
    if Parse(text).Ok? {
      ComponentsCount(Split(text, '/'));
      ComponentsCount(Split(text, '/')[1..]);
      RoundTrip(Parse(text).value);
    }
  }

  lemma {:induction false} ComponentsCount(pieces: seq<string>)
    ensures ParseComponents(pieces).Ok? ==> |ParseComponents(pieces).value| == |pieces|
  {
    if pieces != [] {
      ComponentsCount(pieces[..|pieces| - 1]);
    }
  }

  // ---------------------------------------------------------------- other spellings

  /** The value of a string of digits in a base. */
  function Positional(s: string, base: nat): nat {
    if s == [] then 0 else Positional(s[..|s| - 1], base) * base + DigitValue(s[|s| - 1])
  }

  predicate DigitsOf(s: string, base: nat) {
    forall i :: 0 <= i < |s| ==> s[i] != '_' && DigitValue(s[i]) < base
  }

  lemma {:induction false} ScanOneMore(s: string, c: char, base: nat, st: Scan)
    requires DigitsOf(s + [c], base)
    ensures ScanDigits(s, base, st).1 == []
    ensures var r := ScanDigits(s, base, st).0;
            ScanDigits(s + [c], base, st) == (Scanned(r, base, c), [])
  {
    hide Scanned, DigitValue;
    var t := s + [c];
    assert t[|s|] == c;
    if s == [] {
      assert t[1..] == [];
    } else {
      assert t[0] == s[0] && t[1..] == s[1..] + [c];
      ScanOneMore(s[1..], c, base, Scanned(st, base, s[0]));
    }
  }

  lemma {:induction false} ScanAll(s: string, base: nat, prev: char)
    requires s != [] && DigitsOf(s, base)
    ensures ScanDigits(s, base, Scan(0, 0, prev, false)) == (Scan(|s|, Positional(s, base), '0', false), [])
  {
    var init, c := s[..|s| - 1], s[|s| - 1];
    assert s == init + [c];
    ScanOneMore(init, c, base, Scan(0, 0, prev, false));
    if init != [] {
      ScanAll(init, base, prev);
    }
  }

  /** A literal with a base prefix, in either case and with any leading zeros, has the value
      of its digits. */
  lemma PrefixedLiteral(prefix: char, s: string)
    requires prefix in {'b', 'B', 'o', 'O', 'x', 'X'} && s != []
    requires DigitsOf(s, if prefix in {'b', 'B'} then 2 else if prefix in {'o', 'O'} then 8 else 16)
    ensures ParseInt("0" + [prefix] + s)
            == Some(Positional(s, if prefix in {'b', 'B'} then 2 else if prefix in {'o', 'O'} then 8 else 16))
  {
    var base := if prefix in {'b', 'B'} then 2 else if prefix in {'o', 'O'} then 8 else 16;
    var text := "0" + [prefix] + s;
    assert text[0] == '0' && text[1] == prefix && text[2..] == s;
    ScanAll(s, base, '0');
  }

  /** Hexadecimal notation in lower or upper case. */
  function Hexadecimal(n: nat, upper: bool): string {
    (if n < 16 then [] else Hexadecimal(n / 16, upper)) + [HexDigit(n % 16, upper)]
  }

  function HexDigit(d: nat, upper: bool): char
    requires d < 16
  {
    (if upper then "0123456789ABCDEF" else "0123456789abcdef")[d]
  }

  lemma HexDigitIs(d: nat, upper: bool)
    requires d < 16
    ensures var c := HexDigit(d, upper);
            DigitValue(c) == d && c != '_' && c != '\'' && !IsSpace(c)
  {
  }

  lemma PositionalAppend(s: string, c: char, base: nat)
    ensures Positional(s + [c], base) == Positional(s, base) * base + DigitValue(c)
  {
    assert (s + [c])[..|s|] == s;
  }

  /** Neither blanks nor marks. */
  predicate Plain(s: string) {
    forall i :: 0 <= i < |s| ==> s[i] != '\'' && !IsSpace(s[i])
  }

  lemma PlainAppend(s: string, c: char)
    requires Plain(s) && DigitsOf(s, 16) && c != '\'' && !IsSpace(c) && c != '_' && DigitValue(c) < 16
    ensures Plain(s + [c]) && DigitsOf(s + [c], 16)
  {
    hide IsSpace, DigitValue;
  }

  lemma {:induction false} HexadecimalShape(n: nat, upper: bool)
    ensures var s := Hexadecimal(n, upper); s != [] && DigitsOf(s, 16) && Plain(s) && Positional(s, 16) == n
  {
    hide HexDigit, DigitValue, IsSpace, DigitsOf, Plain, Positional;
    HexDigitIs(n % 16, upper);
    var c := HexDigit(n % 16, upper);
    var init := if n < 16 then [] else Hexadecimal(n / 16, upper);
    if n >= 16 {
      HexadecimalShape(n / 16, upper);
    } else {
      NoDigits();
    }
    PlainAppend(init, c);
    PositionalAppend(init, c, 16);
  }

  lemma NoDigits()
    ensures Plain([]) && DigitsOf([], 16) && Positional([], 16) == 0
  {
  }

  lemma {:induction false} TrimLeftPad(pad: string, s: string)
    requires (forall i :: 0 <= i < |pad| ==> IsSpace(pad[i])) && s != [] && !IsSpace(s[0])
    ensures TrimLeft(pad + s) == s
  {
    hide IsSpace;
    if pad != [] {
      assert (pad + s)[0] == pad[0] && (pad + s)[1..] == pad[1..] + s;
      TrimLeftPad(pad[1..], s);
    } else {
      assert pad + s == s;
    }
  }

  lemma {:induction false} TrimRightPad(s: string, pad: string)
    requires (forall i :: 0 <= i < |pad| ==> IsSpace(pad[i])) && s != [] && !IsSpace(s[|s| - 1])
    ensures TrimRight(s + pad) == s
  {
    hide IsSpace;
    if pad != [] {
      var n := |pad| - 1;
      assert (s + pad)[|s + pad| - 1] == pad[n] && (s + pad)[..|s + pad| - 1] == s + pad[..n];
      TrimRightPad(s, pad[..n]);
    } else {
      assert s + pad == s;
    }
  }

  predicate Blank(s: string) {
    forall i :: 0 <= i < |s| ==> IsSpace(s[i])
  }

  lemma PaddingIsIgnored(before: string, s: string, after: string)
    requires Blank(before) && Blank(after) && s != [] && !IsSpace(s[0]) && !IsSpace(s[|s| - 1])
    ensures TrimSpace(before + s + after) == s
  {
    hide IsSpace;
    assert before + s + after == before + (s + after);
    assert (s + after)[0] == s[0];
    TrimLeftPad(before, s + after);
    TrimRightPad(s, after);
  }

  /** A component with a number in it, blanks around it and around its mark: the exact
      ranges with and without the mark. */
  lemma ComponentExactly(before: string, text: string, between: string, after: string, hardened: bool)
    requires Blank(before) && Blank(between) && Blank(after)
    requires text != [] && !IsSpace(text[0]) && !IsSpace(text[|text| - 1]) && text[|text| - 1] != '\''
    ensures ParseComponent(before + text + between + (if hardened then "'" + after else ""))
            == match ParseInt(text)
               case None => Err(InvalidComponent)
               case Some(v) =>
                 if v < 0 || v > (if hardened then 0x7FFF_FFFF else 0xFFFF_FFFF) then Err(OutOfRange)
                 else Ok(if hardened then 0x8000_0000 + v else v)
  {
    hide IsSpace, ParseInt, TrimSpace, Blank;
    if hardened {
      var marked := text + between + "'";
      QuoteIsNoSpace();
      assert marked[0] == text[0] && marked[|marked| - 1] == '\'';
      PaddingIsIgnored(before, marked, after);
      assert before + text + between + ("'" + after) == before + marked + after;
      assert marked[..|marked| - 1] == [] + text + between;
      NothingIsBlank();
      PaddingIsIgnored([], text, between);
    } else {
      PaddingIsIgnored(before, text, between);
      assert before + text + between + "" == before + text + between;
    }
  }

  lemma QuoteIsNoSpace()
    ensures !IsSpace('\'')
  {
  }

  lemma NothingIsBlank()
    ensures Blank([])
  {
  }

  /** Hexadecimal components, as the tests of the wallet use them. */
  lemma HexadecimalComponent(n: nat, upper: bool, hardened: bool)
    requires n <= (if hardened then 0x7FFF_FFFF else 0xFFFF_FFFF)
    ensures ParseComponent("0x" + Hexadecimal(n, upper) + (if hardened then "'" else ""))
            == Ok(if hardened then 0x8000_0000 + n else n)
  {
    hide IsSpace, ParseInt, ParseComponent, Blank, Hexadecimal;
    var s := Hexadecimal(n, upper);
    HexadecimalShape(n, upper);
    PrefixedLiteral('x', s);
    assert "0" + ['x'] + s == "0x" + s;
    NothingIsBlank();
    ZeroIsNoSpace();
    ComponentExactly([], "0x" + s, [], [], hardened);
    assert [] + ("0x" + s) + [] + (if hardened then "'" + [] else "") == "0x" + s + (if hardened then "'" else "");
  }

  lemma ZeroIsNoSpace()
    ensures !IsSpace('0')
  {
  }

  /** A leading separator is refused, whatever follows. */
  lemma LeadingSeparator(rest: string)
    ensures Parse("/" + rest) == Err(Ambiguous)
  {
    SplitAtSeparator("", rest, '/');
    assert "" + ['/'] + rest == "/" + rest;
  }

  /** A path printed without its `m/` is taken below the default root. */
  lemma RelativePath(path: seq<uint32>)
    requires path != []
    ensures Parse(ShowComponent(path[0]) + ShowTail(path[1..])) == Ok(DEFAULT_ROOT + path)
  {
    hide Split, ShowTail, ParseComponents, ParseComponent;
    var first := ShowComponent(path[0]);
    ComponentRoundTrip(path[0]);
    SplitShown(first, path[1..]);
    assert [first] + Pieces(path[1..]) == Pieces(path);
    PiecesRoundTrip(path);
    ShownIsNoRoot(path[0]);
  }

  lemma ShownIsNoRoot(c: uint32)
    ensures TrimSpace(ShowComponent(c)) == ShowComponent(c) != [] && ShowComponent(c) != "m"
  {
    var n: nat := if c >= HARDENED then c - HARDENED else c;
    DecimalShape(n);
    assert ShowComponent(c)[0] == Decimal(n)[0];
    TrimNothing(ShowComponent(c));
  }

  lemma {:induction false} DecimalIs(n: nat)
    ensures Positional(Decimal(n), 10) == n
  {
    if n >= 10 {
      DecimalIs(n / 10);
      PositionalAppend(Decimal(n / 10), Digit(n % 10), 10);
    } else {
      PositionalAppend([], Digit(n), 10);
      assert [] + [Digit(n)] == Decimal(n);
    }
  }

  /** A component is printed with a mark exactly if it is hardened, and then without the
      hardened bit. */
  lemma HardenedIsMarked(c: uint32)
    ensures var s := ShowComponent(c);
            && s != [] && (s[|s| - 1] == '\'' <==> c >= 0x8000_0000)
            && Positional(if c >= 0x8000_0000 then s[..|s| - 1] else s, 10) == c % 0x8000_0000
  {
    var n: nat := if c >= HARDENED then c - HARDENED else c;
    DecimalShape(n);
    DecimalIs(n);
    if c >= HARDENED {
      assert ShowComponent(c)[..|ShowComponent(c)| - 1] == Decimal(n);
    }
  }
}
