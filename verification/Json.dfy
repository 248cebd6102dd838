/** JSON values and a reader of JSON text without white space, by the grammar of RFC 8259. */
module Json {
  import opened Common

  type Digit = d: nat | d < 10

  /** The digits after a decimal point. */
  type Fraction = f: seq<Digit> | f != [] witness [0]

  /** A flag value. `Int` is an integer held in any Go numeric type; `Dec` is a non-integral float,
      given by the digits strconv.FormatFloat(x, 'f', -1) prints for it. */
  datatype Value =
    | Null
    | Bool(b: bool)
    | Int(n: int)
    | Dec(neg: bool, whole: nat, frac: Fraction)
    | Str(text: string)
    | Arr(items: seq<Value>)
    | Obj(fields: map<string, Value>)

  /** A member of an object. */
  datatype Field = Field(name: string, value: Value)

  // ----- Numbers: section 6 of RFC 8259, without exponents -----

  function DigitValue(c: char): Option<Digit> {
    match c
    case '0' => Some(0)
    case '1' => Some(1)
    case '2' => Some(2)
    case '3' => Some(3)
    case '4' => Some(4)
    case '5' => Some(5)
    case '6' => Some(6)
    case '7' => Some(7)
    case '8' => Some(8)
    case '9' => Some(9)
    case _ => None
  }

  predicate Digits(s: string) {
    forall i :: 0 <= i < |s| ==> DigitValue(s[i]).Some?
  }

  function ReadDigits(s: string): seq<Digit>
    requires Digits(s)
  {
    seq(|s|, i requires 0 <= i < |s| => DigitValue(s[i]).value)
  }

  function ReadNat(s: string): nat
    requires Digits(s)
  {
    if s == [] then 0 else 10 * ReadNat(s[..|s| - 1]) + DigitValue(s[|s| - 1]).value
  }

  /** The length of the part of a text that can belong to a number. */
  function NumberLength(s: string): (n: nat)
    ensures n <= |s|
  {
    if s != [] && (DigitValue(s[0]).Some? || s[0] == '-' || s[0] == '.') then 1 + NumberLength(s[1..]) else 0
  }

  /** Where the character first occurs, or the length. */
  function Find(s: string, c: char): (n: nat)
    ensures n <= |s| && c !in s[..n] && (n < |s| ==> s[n] == c)
  {
    if s == [] || s[0] == c then 0
    else
      var n := Find(s[1..], c);
      assert s[..n + 1] == [s[0]] + s[1..][..n];
      n + 1
  }

  /** At least one digit, and no zero in front of others. */
  predicate Whole(s: string) {
    s != [] && Digits(s) && (|s| > 1 ==> s[0] != '0')
  }

  function ReadNumber(s: string): Option<Value> {
    var neg := s != [] && s[0] == '-';
    var body := if neg then s[1..] else s;
    var dot := Find(body, '.');
    if !Whole(body[..dot]) then None
    else if dot == |body| then
      var n: int := ReadNat(body);
      Some(Int(if neg then -n else n))
    else if dot + 1 == |body| || !Digits(body[dot + 1..]) then None
    else Some(Dec(neg, ReadNat(body[..dot]), ReadDigits(body[dot + 1..])))
  }

  // ----- Strings: section 7 -----

  function HexValue(c: char): Option<nat> {
    if DigitValue(c).Some? then Some(DigitValue(c).value)
    else if c == 'a' || c == 'A' then Some(10)
    else if c == 'b' || c == 'B' then Some(11)
    else if c == 'c' || c == 'C' then Some(12)
    else if c == 'd' || c == 'D' then Some(13)
    else if c == 'e' || c == 'E' then Some(14)
    else if c == 'f' || c == 'F' then Some(15)
    else None
  }

  /** Four hexadecimal digits that stand for a character by themselves, that is, not for half of a pair. */
  function ReadHex(s: string): Option<char>
    requires |s| == 4
  {
    if exists i :: 0 <= i < 4 && HexValue(s[i]).None? then None
    else
      var n := ((HexValue(s[0]).value * 16 + HexValue(s[1]).value) * 16 + HexValue(s[2]).value) * 16
        + HexValue(s[3]).value;
      if n < 0xD800 || 0xE000 <= n < 0x10000 then Some(n as char) else None
  }

  /** The character after a backslash. */
  function ReadEscape(c: char): Option<char> {
    match c
    case '"' => Some('"')
    case '\\' => Some('\\')
    case '/' => Some('/')
    case 'b' => Some(8 as char)
    case 'f' => Some(12 as char)
    case 'n' => Some(10 as char)
    case 'r' => Some(13 as char)
    case 't' => Some(9 as char)
    case _ => None
  }

  /** The first character a string's text stands for, and what is left. */
  function ReadChar(s: string): (r: Option<(char, string)>)
    requires s != []
    ensures r.Some? ==> |r.value.1| < |s|
  {
    if s[0] as int < 0x20 then None
    else if s[0] != '\\' then Some((s[0], s[1..]))
    else if |s| >= 6 && s[1] == 'u' then
      match ReadHex(s[2..6]) case None => None case Some(c) => Some((c, s[6..]))
    else if |s| >= 2 then
      match ReadEscape(s[1]) case None => None case Some(c) => Some((c, s[2..]))
    else None
  }

  /** The text of a string up to its closing quote, and what follows that. */
  function ReadString(s: string): (r: Option<(string, string)>)
    ensures r.Some? ==> |r.value.1| < |s|
    decreases |s|
  {
    if s == [] then None
    else if s[0] == '"' then Some(("", s[1..]))
    else
      match ReadChar(s)
      case None => None
      case Some((c, rest)) =>
        match ReadString(rest)
        case None => None
        case Some((text, after)) => Some(([c] + text, after))
  }

  // ----- Values: sections 3 to 5 -----

  /** A value at the start of a text, and what follows it. */
  function ReadValue(s: string): (r: Option<(Value, string)>)
    ensures r.Some? ==> |r.value.1| < |s|
    decreases |s|, 1
  {
    if s == [] then None
    else if "null" <= s then Some((Null, s[4..]))
    else if "true" <= s then Some((Bool(true), s[4..]))
    else if "false" <= s then Some((Bool(false), s[5..]))
    else if s[0] == '"' then
      match ReadString(s[1..]) case None => None case Some((text, rest)) => Some((Str(text), rest))
    else if s[0] == '[' then
      match ReadItems(s[1..], true) case None => None case Some((items, rest)) => Some((Arr(items), rest))
    else if s[0] == '{' then
      match ReadMembers(s[1..], true) case None => None case Some((ms, rest)) => Some((Obj(ToMap(ms)), rest))
    else
      var n := NumberLength(s);
      match ReadNumber(s[..n])
      case None => None
      case Some(number) => if n == 0 then None else Some((number, s[n..]))
  }

  /** The elements from here on, each after the first preceded by a comma, up to the closing bracket. */
  function ReadItems(s: string, first: bool): (r: Option<(seq<Value>, string)>)
    ensures r.Some? ==> |r.value.1| < |s|
    decreases |s|, 2
  {
    if s == [] then None
    else if s[0] == ']' then Some(([], s[1..]))
    else if !first && s[0] != ',' then None
    else
      match ReadValue(if first then s else s[1..])
      case None => None
      case Some((item, rest)) =>
        match ReadItems(rest, false)
        case None => None
        case Some((items, after)) => Some(([item] + items, after))
  }

  /** The same for members, in the order of the text, up to the closing brace. */
  function ReadMembers(s: string, first: bool): (r: Option<(seq<Field>, string)>)
    ensures r.Some? ==> |r.value.1| < |s|
    decreases |s|, 2
  {
    if s == [] then None
    else if s[0] == '}' then Some(([], s[1..]))
    else if !first && s[0] != ',' then None
    else
      match ReadMember(if first then s else s[1..])
      case None => None
      case Some((member, rest)) =>
        match ReadMembers(rest, false)
        case None => None
        case Some((members, after)) => Some(([member] + members, after))
  }

  function ReadMember(s: string): (r: Option<(Field, string)>)
    ensures r.Some? ==> |r.value.1| < |s|
    decreases |s|, 1
  {
    if s == [] || s[0] != '"' then None
    else
      match ReadString(s[1..])
      case None => None
      case Some((name, rest)) =>
        if rest == [] || rest[0] != ':' then None
        else
          match ReadValue(rest[1..])
          case None => None
          case Some((value, after)) => Some((Field(name, value), after))
  }

  /** An object's members as a map; the last of several with one name counts. */
  function ToMap(members: seq<Field>): map<string, Value> {
    if members == [] then map[]
    else map[members[0].name := members[0].value] + ToMap(members[1..])
  }

  /** A text that is one value and nothing else. */
  function Read(s: string): Option<Value> {
    match ReadValue(s)
    case None => None
    case Some((v, rest)) => if rest == [] then Some(v) else None
  }

  /** The members of a text that is one object and nothing else, in the order of the text. */
  function ReadObject(s: string): Option<seq<Field>> {
    if s == [] || s[0] != '{' then None
    else
      match ReadMembers(s[1..], true)
      case None => None
      case Some((members, rest)) => if rest == [] then Some(members) else None
  }

  // ----- The order of names -----

  /** A proper prefix of the other text, or smaller at the first character in which they differ. */
  predicate Lexical(a: string, b: string) {
    exists n :: 0 <= n <= |a| && LexicalAt(a, b, n)
  }

  predicate LexicalAt(a: string, b: string, n: nat)
    requires n <= |a|
  {
    n < |b| && a[..n] == b[..n] && (n < |a| ==> a[n] < b[n])
  }
}
