/**
 The canonical JSON printer of security/security.go and the bootstrap signature built on it.
 `Print` is the specification of the printer; the methods below it follow the source's loops.
 */
module Canonical {
  import opened Common
  import opened Json
  import opened Text

  // ----- String escaping (encoding/json.Marshal of a string) -----

  function HexChar(d: nat): (c: char)
    requires d < 16
    ensures c != '"' && c != '\\'
  {
    if d < 10 then '0' + d as char else 'a' + (d - 10) as char
  }

  function Hex4(n: nat): (s: string)
    requires n < 0x10000
    ensures |s| == 4
  {
    [HexChar(n / 16 / 16 / 16), HexChar(n / 16 / 16 % 16), HexChar(n / 16 % 16), HexChar(n % 16)]
  }

  /** Characters written as a hexadecimal escape: controls without a short form, Go's HTML-sensitive
      characters, and the two line separators. */
  predicate HexEscaped(c: char) {
    || (c as int < 0x20 && c != '\n' && c != '\r' && c != '\t')
    || c == '<' || c == '>' || c == '&'
    || c as int == 0x2028 || c as int == 0x2029
  }

  function Escape(c: char): (s: string)
    ensures |s| > 0 && s[0] != '"'
  {
    if c == '"' then "\\\""
    else if c == '\\' then "\\\\"
    else if c == '\n' then "\\n"
    else if c == '\r' then "\\r"
    else if c == '\t' then "\\t"
    else if HexEscaped(c) then "\\u" + Hex4(c as int)
    else [c]
  }

  /** The escaped characters of a string, up to and including the closing quote. */
  function Body(text: string): string {
    if text == [] then "\"" else Escape(text[0]) + Body(text[1..])
  }

  function Quote(text: string): string {
    "\"" + Body(text)
  }

  // ----- Key order (sort.Strings) -----

  /** Byte order of the UTF-8 encodings, which is the order of code points. */
  predicate Before(a: string, b: string) {
    b != [] && (a == [] || a[0] < b[0] || (a[0] == b[0] && Before(a[1..], b[1..])))
  }

  /** It is the order of Lexical: at the first difference, a proper prefix or the smaller character. */
  lemma {:induction false} BeforeLexical(a: string, b: string)
    ensures Before(a, b) <==> Lexical(a, b)
    decreases |a|
  {
    if a == [] && b != [] {
      assert LexicalAt(a, b, 0);
    } else if a != [] && b != [] {
      if a[0] == b[0] {
        BeforeLexical(a[1..], b[1..]);
        LexicalTail(a, b);
      } else {
        LexicalFirst(a, b);
      }
    }
  }

  lemma LexicalFirst(a: string, b: string)
    requires a != [] && b != [] && a[0] != b[0]
    ensures Lexical(a, b) <==> a[0] < b[0]
  {
    assert a[..0] == b[..0];
    assert LexicalAt(a, b, 0) <==> a[0] < b[0];
    assert forall n :: 1 <= n <= |a| && n < |b| ==> a[..n][0] != b[..n][0];
  }

  lemma LexicalTail(a: string, b: string)
    requires a != [] && b != [] && a[0] == b[0]
    ensures Lexical(a, b) <==> Lexical(a[1..], b[1..])
  {
    var x, y := a[1..], b[1..];
    if n :| 0 <= n <= |a| && LexicalAt(a, b, n) {
      assert x[..n - 1] == a[..n][1..] == b[..n][1..] == y[..n - 1];
      assert LexicalAt(x, y, n - 1);
    }
    if n :| 0 <= n <= |x| && LexicalAt(x, y, n) {
      assert a[..n + 1] == [a[0]] + x[..n] == [b[0]] + y[..n] == b[..n + 1];
      assert LexicalAt(a, b, n + 1);
    }
  }

  /** The keys of an object are printed in that order. */
  lemma KeysLexical(keys: set<string>, i: nat, j: nat)
    requires i < j < |KeyOrder(keys)|
    ensures Lexical(KeyOrder(keys)[i], KeyOrder(keys)[j])
  {
    BeforeLexical(KeyOrder(keys)[i], KeyOrder(keys)[j]);
  }

  predicate Ascending(keys: seq<string>) {
    forall i, j :: 0 <= i < j < |keys| ==> Before(keys[i], keys[j])
  }

  lemma BeforeTotal(a: string, b: string)
    ensures !(Before(a, b) && Before(b, a))
    ensures Before(a, b) || Before(b, a) || a == b
  {
    if a != [] && b != [] && a[0] == b[0] {
      BeforeTotal(a[1..], b[1..]);
      assert a == [a[0]] + a[1..] && b == [b[0]] + b[1..];
    }
  }

  lemma BeforeTransitive(a: string, b: string, c: string)
    requires Before(a, b) && Before(b, c)
    ensures Before(a, c)
  {
    if a != [] && a[0] == b[0] == c[0] {
      BeforeTransitive(a[1..], b[1..], c[1..]);
    }
  }

  function Insert(k: string, keys: seq<string>): (r: seq<string>)
    ensures Elements(r) == Elements(keys) + {k}
  {
    if keys == [] then [k]
    else if Before(keys[0], k) then
      var rest := Insert(k, keys[1..]);
      assert Elements(keys) == {keys[0]} + Elements(keys[1..]);
      assert Elements([keys[0]] + rest) == {keys[0]} + Elements(rest);
      [keys[0]] + rest
    else
      assert Elements([k] + keys) == {k} + Elements(keys);
      [k] + keys
  }

  lemma {:induction false} InsertAscending(k: string, keys: seq<string>)
    requires Ascending(keys) && k !in keys
    ensures Ascending(Insert(k, keys))
  {
    if keys != [] {
      var head := keys[0];
      if Before(head, k) {
        InsertAscending(k, keys[1..]);
        var rest := Insert(k, keys[1..]);
        forall j | 0 <= j < |rest|
          ensures Before(head, rest[j])
        {
          assert rest[j] in Elements(rest);
          if rest[j] != k {
            assert rest[j] in keys[1..];
          }
        }
      } else {
        BeforeTotal(head, k);
        forall j | 0 <= j < |keys|
          ensures Before(k, keys[j])
        {
          if j > 0 { BeforeTransitive(k, head, keys[j]); }
        }
      }
    }
  }

  /** The keys of a map in ascending order. */
  ghost function KeyOrder(keys: set<string>): (r: seq<string>)
    ensures Elements(r) == keys && Ascending(r)
  {
    if keys == {} then [] else
      var k :| k in keys;
      var rest := KeyOrder(keys - {k});
      assert k !in Elements(rest);
      InsertAscending(k, rest);
      Insert(k, rest)
  }

  /** Ascending order is determined by the elements: nothing is left of the order they came in. */
  lemma {:induction false} AscendingUnique(a: seq<string>, b: seq<string>)
    requires Ascending(a) && Ascending(b) && Elements(a) == Elements(b)
    ensures a == b
  {
    if a == [] {
      assert forall i :: 0 <= i < |b| ==> b[i] in Elements(b);
    } else {
      assert a[0] in Elements(b);
      var i :| 0 <= i < |b| && b[i] == a[0];
      assert b[0] in Elements(a);
      var j :| 0 <= j < |a| && a[j] == b[0];
      BeforeTotal(a[0], b[0]);
      assert a[0] == b[0];
      forall k
        ensures k in Elements(a[1..]) <==> k in Elements(b[1..])
      {
        AscendingTail(a, k);
        AscendingTail(b, k);
      }
      AscendingUnique(a[1..], b[1..]);
    }
  }

  lemma AscendingTail(a: seq<string>, k: string)
    requires a != [] && Ascending(a)
    ensures k in Elements(a[1..]) <==> k in Elements(a) && k != a[0]
  {
    if k in a[1..] {
      var i :| 0 <= i < |a[1..]| && a[1..][i] == k;
      assert Before(a[0], a[i + 1]);
      BeforeTotal(k, k);
    }
  }

  // ----- The printer -----

  function FracText(frac: seq<Digit>): (s: string)
    ensures |s| == |frac| && forall i :: 0 <= i < |s| ==> s[i] == DigitChar(frac[i])
  {
    seq(|frac|, i requires 0 <= i < |frac| => DigitChar(frac[i]))
  }

  function DecText(neg: bool, whole: nat, frac: seq<Digit>): string {
    (if neg then "-" else "") + Decimal(whole) + ("." + FracText(frac))
  }

  ghost function Print(v: Value): string
    decreases v, 2
  {
    match v
    case Null => "null"
    case Bool(b) => if b then "true" else "false"
    case Int(n) => FormatInt(n)
    case Dec(neg, whole, frac) => DecText(neg, whole, frac)
    case Str(text) => Quote(text)
    case Arr(items) => "[" + Items(items, true)
    case Obj(fields) => "{" + Members(v, KeyOrder(fields.Keys), true)
  }

  /** The elements from here on, each after the first preceded by a comma, and the closing bracket. */
  ghost function Items(items: seq<Value>, first: bool): string
    decreases items, 0
  {
    if items == [] then "]"
    else (if first then "" else ",") + Print(items[0]) + Items(items[1..], false)
  }

  ghost function Members(v: Value, keys: seq<string>, first: bool): string
    requires v.Obj? && Elements(keys) <= v.fields.Keys
    decreases v, 1, |keys|
  {
    if keys == [] then "}"
    else
      assert keys[0] in Elements(keys);
      (if first then "" else ",") + Member(v, keys[0]) + Members(v, keys[1..], false)
  }

  ghost function Member(v: Value, key: string): string
    requires v.Obj? && key in v.fields
    decreases v, 0
  {
    Quote(key) + ":" + Print(v.fields[key])
  }


  // ----- Unique decoding -----

  predicate Numeric(v: Value) {
    v.Int? || v.Dec?
  }

  predicate NumberChar(c: char) {
    IsDigit(c) || c == '-' || c == '.'
  }

  /** Text that may follow a value inside an array or object, or at the end of the input. */
  predicate Stops(s: string) {
    s == [] || s[0] == ',' || s[0] == ']' || s[0] == '}'
  }

  /** Which kind of value a text starts: its first character tells. */
  function Kind(c: char): nat {
    if c == 'n' then 0 else if c == 't' then 1 else if c == 'f' then 2
    else if NumberChar(c) then 3 else if c == '"' then 4 else if c == '[' then 5 else if c == '{' then 6 else 7
  }

  lemma PrintHead(v: Value)
    ensures Print(v) != []
    ensures Kind(Print(v)[0]) ==
      match v {
        case Null => 0
        case Bool(b) => if b then 1 else 2
        case Int(_) => 3
        case Dec(_, _, _) => 3
        case Str(_) => 4
        case Arr(_) => 5
        case Obj(_) => 6
      }
  {
  }

  lemma NumberText(v: Value)
    requires Numeric(v)
    ensures AllIn(Print(v), NumberChar)
    ensures v.Int? <==> '.' !in Print(v)
  {
    if v.Int? {
      var d := Decimal(if v.n < 0 then -v.n else v.n);
      assert AllIn(d, IsDigit);
    } else {
      var sign, d, rest := if v.neg then "-" else "", Decimal(v.whole), "." + FracText(v.frac);
      assert (sign + d + rest)[|sign| + |d|] == '.';
    }
  }

  lemma DecInjective(v: Value, w: Value)
    requires v.Dec? && w.Dec? && Print(v) == Print(w)
    ensures v == w
  {
    var restV, restW := "." + FracText(v.frac), "." + FracText(w.frac);
    var dv, dw := Decimal(v.whole), Decimal(w.whole);
    DecShape(v.neg, dv, restV);
    DecShape(w.neg, dw, restW);
    TokenBoundary(dv, dw, restV, restW, IsDigit);
    DecimalInjective(v.whole, w.whole);
    assert FracText(v.frac) == restV[1..] == restW[1..] == FracText(w.frac);
    FracInjective(v.frac, w.frac);
  }

  lemma DecShape(neg: bool, whole: string, rest: string)
    requires whole != "" && whole[0] != '-'
    ensures var text := (if neg then "-" else "") + whole + rest;
      (text[0] == '-' <==> neg) && text[if neg then 1 else 0..] == whole + rest
  {
  }

  lemma FracInjective(a: seq<Digit>, b: seq<Digit>)
    requires FracText(a) == FracText(b)
    ensures a == b
  {
    assert |a| == |b|;
    forall i | 0 <= i < |a|
      ensures a[i] == b[i]
    {
      assert FracText(a)[i] == FracText(b)[i];
    }
  }

  lemma UniqueNumber(v: Value, w: Value, s: string, t: string)
    requires Numeric(v) && Numeric(w) && Stops(s) && Stops(t)
    requires Print(v) + s == Print(w) + t
    ensures v == w && s == t
  {
    NumberText(v);
    NumberText(w);
    TokenBoundary(Print(v), Print(w), s, t, NumberChar);
    if v.Int? {
      FormatIntInjective(v.n, w.n);
    } else {
      DecInjective(v, w);
    }
  }

  lemma HexCharInjective(d: nat, e: nat)
    requires d < 16 && e < 16 && HexChar(d) == HexChar(e)
    ensures d == e
  {
  }

  lemma Hex4Injective(m: nat, n: nat)
    requires m < 0x10000 && n < 0x10000 && Hex4(m) == Hex4(n)
    ensures m == n
  {
    var a, b := Hex4(m), Hex4(n);
    assert a[0] == b[0] && a[1] == b[1] && a[2] == b[2] && a[3] == b[3];
    HexCharInjective(m / 16 / 16 / 16, n / 16 / 16 / 16);
    HexCharInjective(m / 16 / 16 % 16, n / 16 / 16 % 16);
    HexCharInjective(m / 16 % 16, n / 16 % 16);
    HexCharInjective(m % 16, n % 16);
    assert m / 16 / 16 == n / 16 / 16;
    assert m / 16 == n / 16;
  }

  lemma UniqueEscape(c: char, d: char, x: string, y: string)
    requires Escape(c) + x == Escape(d) + y
    ensures c == d && x == y
  {
    var e, f := Escape(c), Escape(d);
    var u := e + x;
    assert u == f + y;
    assert forall i :: 0 <= i < |e| ==> u[i] == e[i];
    assert forall i :: 0 <= i < |f| ==> u[i] == f[i];
    assert e[0] == f[0];
    if |e| == 6 && |f| == 6 {
      assert e == u[..6] == f;
      SameHexEscape(c, d);
    } else if |e| > 1 && |f| > 1 {
      assert e[1] == f[1];
    }
    assert c == d;
    assert x == u[|e|..] == y;
  }

  lemma SameHexEscape(c: char, d: char)
    requires |Escape(c)| == |Escape(d)| == 6 && Escape(c) == Escape(d)
    ensures c == d
  {
    assert Escape(c)[2..] == Hex4(c as int) && Escape(d)[2..] == Hex4(d as int);
    Hex4Injective(c as int, d as int);
  }

  lemma {:induction false} UniqueBody(a: string, b: string, s: string, t: string)
    requires Body(a) + s == Body(b) + t
    ensures a == b && s == t
  {
    var u, restA := BodyHead(a, s);
    var w, restB := BodyHead(b, t);
    assert u[0] == w[0];
    if a != [] {
      UniqueEscape(a[0], b[0], restA, restB);
      UniqueBody(a[1..], b[1..], s, t);
      assert a == [a[0]] + a[1..] && b == [b[0]] + b[1..];
    }
  }

  lemma BodyHead(a: string, s: string) returns (u: string, rest: string)
    ensures u == Body(a) + s && u != [] && (u[0] == '"' <==> a == [])
    ensures a == [] ==> u[1..] == s
    ensures a != [] ==> rest == Body(a[1..]) + s && u == Escape(a[0]) + rest
  {
    u, rest := Body(a) + s, "";
    if a != [] {
      rest := Body(a[1..]) + s;
      assert u == Escape(a[0]) + rest;
    }
  }

  lemma UniqueQuote(a: string, b: string, s: string, t: string)
    requires Quote(a) + s == Quote(b) + t
    ensures a == b && s == t
  {
    DropFirst('"', Body(a), s, Body(b), t);
    UniqueBody(a, b, s, t);
  }

  /** How the text of an array's remaining elements starts, and what is left after its first element. */
  lemma ItemsHead(items: seq<Value>, first: bool, s: string) returns (u: string, tail: string)
    ensures u == Items(items, first) + s && u != []
    ensures u[0] == ']' <==> items == []
    ensures !first ==> Stops(u)
    ensures items == [] ==> u[1..] == s
    ensures items != [] ==>
      tail == Items(items[1..], false) + s && u[if first then 0 else 1..] == Print(items[0]) + tail
  {
    u, tail := Items(items, first) + s, "";
    if items != [] {
      PrintHead(items[0]);
      tail := Items(items[1..], false) + s;
      assert u == (if first then "" else ",") + (Print(items[0]) + tail);
    }
  }

  lemma Regroup(sep: string, key: string, value: string, rest: string, s: string) returns (u: string)
    ensures u == sep + (key + ":" + value) + rest + s
    ensures u == sep + (key + (":" + (value + (rest + s))))
    ensures u[|sep|..] == key + (":" + (value + (rest + s)))
    ensures u[0] == (if sep == "" then if key == "" then ':' else key[0] else sep[0])
  {
    u := sep + (key + ":" + value) + rest + s;
    assert u == sep + (key + (":" + (value + (rest + s))));
  }

  lemma MembersHead(v: Value, keys: seq<string>, first: bool, s: string)
    returns (u: string, value: string, tail: string)
    requires v.Obj? && Elements(keys) <= v.fields.Keys
    ensures u == Members(v, keys, first) + s && u != []
    ensures u[0] == '}' <==> keys == []
    ensures !first ==> Stops(u)
    ensures keys == [] ==> u[1..] == s
    ensures keys != [] ==>
      && keys[0] in Elements(keys) && Elements(keys[1..]) <= Elements(keys)
      && tail == Members(v, keys[1..], false) + s && value == Print(v.fields[keys[0]]) + tail
      && u[if first then 0 else 1..] == Quote(keys[0]) + (":" + value)
  {
    u, value, tail := Members(v, keys, first) + s, "", "";
    if keys != [] {
      assert keys[0] in Elements(keys);
      var rest := Members(v, keys[1..], false);
      tail := rest + s;
      value := Print(v.fields[keys[0]]) + tail;
      u := Regroup(if first then "" else ",", Quote(keys[0]), Print(v.fields[keys[0]]), rest, s);
    }
  }

  /** A printed value can be read back in one way only, whatever legally follows it. */
  lemma {:induction false} UniqueValue(v: Value, w: Value, s: string, t: string)
    requires Print(v) + s == Print(w) + t
    requires Stops(s) && Stops(t)
    ensures v == w && s == t
    decreases v, 1
  {
    PrintHead(v);
    PrintHead(w);
    assert (Print(v) + s)[0] == (Print(w) + t)[0];
    if Numeric(v) {
      UniqueNumber(v, w, s, t);
    } else if v.Str? {
      UniqueQuote(v.text, w.text, s, t);
    } else if v.Arr? {
      DropFirst('[', Items(v.items, true), s, Items(w.items, true), t);
      UniqueItems(v.items, w.items, true, s, t);
    } else if v.Obj? {
      UniqueObject(v, w, s, t);
    } else {
      UniqueConstant(v, w, s, t);
    }
  }

  lemma UniqueConstant(v: Value, w: Value, s: string, t: string)
    requires v.Null? || v.Bool?
    requires v == w && Print(v) + s == Print(w) + t
    ensures s == t
  {
    assert s == (Print(v) + s)[|Print(v)|..] == t;
  }

  lemma {:induction false} UniqueObject(v: Value, w: Value, s: string, t: string)
    requires v.Obj? && w.Obj? && Print(v) + s == Print(w) + t
    requires Stops(s) && Stops(t)
    ensures v == w && s == t
    decreases v, 0
  {
    var kv, kw := KeyOrder(v.fields.Keys), KeyOrder(w.fields.Keys);
    DropFirst('{', Members(v, kv, true), s, Members(w, kw, true), t);
    UniqueMembers(v, w, kv, kw, true, s, t);
    SameFields(v.fields, w.fields, kv);
  }

  lemma DropFirst(c: char, a: string, s: string, b: string, t: string)
    requires [c] + a + s == [c] + b + t
    ensures a + s == b + t
  {
    assert a + s == ([c] + a + s)[1..] == ([c] + b + t)[1..] == b + t;
  }

  lemma SameFields(m: map<string, Value>, n: map<string, Value>, keys: seq<string>)
    requires m.Keys == n.Keys == Elements(keys)
    requires forall k :: k in keys ==> k in m && k in n && m[k] == n[k]
    ensures m == n
  {
    forall k | k in m
      ensures m[k] == n[k]
    {
      assert k in Elements(keys);
    }
  }

  lemma {:induction false} UniqueItems(a: seq<Value>, b: seq<Value>, first: bool, s: string, t: string)
    requires Items(a, first) + s == Items(b, first) + t
    requires Stops(s) && Stops(t)
    ensures a == b && s == t
    decreases a
  {
    var _, tailA := ItemsHead(a, first, s);
    var _, tailB := ItemsHead(b, first, t);
    if a != [] {
      var _, _ := ItemsHead(a[1..], false, s);
      var _, _ := ItemsHead(b[1..], false, t);
      UniqueValue(a[0], b[0], tailA, tailB);
      UniqueItems(a[1..], b[1..], false, s, t);
      assert a == [a[0]] + a[1..] && b == [b[0]] + b[1..];
    }
  }

  lemma {:induction false} UniqueMembers(v: Value, w: Value, a: seq<string>, b: seq<string>, first: bool,
                                         s: string, t: string)
    requires v.Obj? && w.Obj? && Elements(a) <= v.fields.Keys && Elements(b) <= w.fields.Keys
    requires Members(v, a, first) + s == Members(w, b, first) + t
    requires Stops(s) && Stops(t)
    ensures a == b && s == t
    ensures forall k :: k in a ==> k in v.fields && k in w.fields && v.fields[k] == w.fields[k]
    decreases v, 0, |a|
  {
    var _, valueA, tailA := MembersHead(v, a, first, s);
    var _, valueB, tailB := MembersHead(w, b, first, t);
    if a != [] {
      var _, _, _ := MembersHead(v, a[1..], false, s);
      var _, _, _ := MembersHead(w, b[1..], false, t);
      UniqueQuote(a[0], b[0], ":" + valueA, ":" + valueB);
      assert valueA == (":" + valueA)[1..] == valueB;
      UniqueValue(v.fields[a[0]], w.fields[b[0]], tailA, tailB);
      UniqueMembers(v, w, a[1..], b[1..], false, s, t);
      assert a == [a[0]] + a[1..] && b == [b[0]] + b[1..];
    }
  }

  /** Equal canonical text means equal values. */
  lemma PrintInjective(v: Value, w: Value)
    requires Print(v) == Print(w)
    ensures v == w
  {
    assert Print(v) + [] == Print(w) + [];
    UniqueValue(v, w, [], []);
  }

  // ----- The printing methods -----

  /** strings.Join(parts, ","). */
  function Join(parts: seq<string>): string {
    if parts == [] then "" else if |parts| == 1 then parts[0] else parts[0] + "," + Join(parts[1..])
  }

  /** sort.Strings. */
  function Sort(keys: seq<string>): (r: seq<string>)
    ensures Elements(r) == Elements(keys)
    ensures (forall i, j :: 0 <= i < j < |keys| ==> keys[i] != keys[j]) ==> Ascending(r)
  {
    if keys == [] then []
    else
      assert Elements(keys) == {keys[0]} + Elements(keys[1..]);
      var rest := Sort(keys[1..]);
      assert keys[0] in rest ==> keys[0] in Elements(rest);
      assert keys[0] in Elements(rest) ==> keys[0] in keys[1..];
      if Ascending(rest) && keys[0] !in rest then InsertAscending(keys[0], rest); Insert(keys[0], rest)
      else Insert(keys[0], rest)
  }

  lemma {:induction false} JoinItems(items: seq<Value>, parts: seq<string>)
    requires |parts| == |items| > 0
    requires forall i :: 0 <= i < |parts| ==> parts[i] == Print(items[i])
    ensures Join(parts) + "]" == Items(items, true)
  {
    if |items| > 1 {
      JoinItems(items[1..], parts[1..]);
      ItemsComma(items[1..]);
      JoinStep(parts, "]", Items(items[1..], true));
      assert Items(items, true) == parts[0] + ("," + Items(items[1..], true)) by { assert "" + parts[0] == parts[0]; }
    } else {
      assert items[1..] == [];
      assert "" + parts[0] == parts[0];
    }
  }

  lemma ItemsComma(items: seq<Value>)
    requires items != []
    ensures Items(items, false) == "," + Items(items, true)
  {
    CommaFirst(Print(items[0]), Items(items[1..], false));
  }

  lemma {:induction false} JoinMembers(v: Value, keys: seq<string>, parts: seq<string>)
    requires v.Obj? && Elements(keys) <= v.fields.Keys
    requires |parts| == |keys| > 0
    requires forall i :: 0 <= i < |parts| ==> keys[i] in v.fields && parts[i] == Member(v, keys[i])
    ensures Join(parts) + "}" == Members(v, keys, true)
  {
    if |keys| > 1 {
      assert forall i :: 0 <= i < |parts| - 1 ==> keys[1..][i] == keys[i + 1] && parts[1..][i] == parts[i + 1];
      assert Elements(keys[1..]) <= Elements(keys);
      JoinMembers(v, keys[1..], parts[1..]);
      MembersComma(v, keys[1..]);
      JoinStep(parts, "}", Members(v, keys[1..], true));
    } else {
      assert keys[1..] == [];
    }
    assert "" + parts[0] == parts[0];
  }

  lemma JoinStep(parts: seq<string>, close: string, rest: string)
    requires |parts| > 1 && Join(parts[1..]) + close == rest
    ensures Join(parts) + close == parts[0] + ("," + rest)
  {
  }

  lemma MembersComma(v: Value, keys: seq<string>)
    requires v.Obj? && Elements(keys) <= v.fields.Keys && keys != []
    ensures Members(v, keys, false) == "," + Members(v, keys, true)
  {
    assert keys[0] in Elements(keys);
    CommaFirst(Member(v, keys[0]), Members(v, keys[1..], false));
  }

  lemma CommaFirst(member: string, rest: string)
    ensures "," + member + rest == "," + ("" + member + rest)
  {
  }

  /** Whatever order the maps below it are ranged over, a value prints as `Print` says. */
  method CanonicalizeValue(v: Value) returns (s: string)
    ensures s == Print(v)
    decreases v, 2
  {
    match v {
      case Null => s := "null";
      case Bool(b) => s := if b then "true" else "false";
      case Int(n) => s := FormatInt(n);
      case Dec(neg, whole, frac) => s := DecText(neg, whole, frac);
      case Str(text) => s := Quote(text);
      case Arr(_) => s := CanonicalizeArray(v);
      case Obj(_) => s := CanonicalizeMap(v);
    }
  }

  method CanonicalizeArray(v: Value) returns (s: string)
    requires v.Arr?
    ensures s == Print(v)
    decreases v, 0
  {
    if v.items == [] {
      return "[]";
    }
    var parts: seq<string> := [];
    for i := 0 to |v.items|
      invariant |parts| == i
      invariant forall j :: 0 <= j < i ==> parts[j] == Print(v.items[j])
    {
      var canonical := CanonicalizeValue(v.items[i]);
      parts := parts + [canonical];
    }
    JoinItems(v.items, parts);
    s := "[" + Join(parts) + "]";
    assert s == "[" + (Join(parts) + "]");
  }

  /** The text of an object with these keys in this order, which is that of Lexical. */
  ghost predicate ObjectText(v: Value, keys: seq<string>, parts: seq<string>, s: string)
    requires v.Obj?
  {
    && Elements(keys) == v.fields.Keys && |parts| == |keys|
    && (forall j :: 0 <= j < |keys| ==>
          keys[j] in v.fields && parts[j] == Quote(keys[j]) + ":" + Print(v.fields[keys[j]]))
    && s == "{" + Join(parts) + "}"
    && forall i, j :: 0 <= i < j < |keys| ==> Lexical(keys[i], keys[j])
  }

  method CanonicalizeMap(v: Value) returns (s: string)
    requires v.Obj?
    ensures s == Print(v)
    ensures exists keys, parts :: ObjectText(v, keys, parts, s)
    decreases v, 1
  {
    if |v.fields| == 0 {
      EmptyObject(v);
      assert ObjectText(v, [], [], "{}");
      return "{}";
    }
    var keys := RangeKeys(v.fields);
    keys := Sort(keys);
    SortedKeys(v.fields, keys);
    var parts := MemberParts(v, keys);
    PrintedObject(v, keys, parts);
    s := "{" + Join(parts) + "}";
    forall i, j | 0 <= i < j < |keys|
      ensures Lexical(keys[i], keys[j])
    {
      BeforeLexical(keys[i], keys[j]);
    }
    assert ObjectText(v, keys, parts, s);
  }

  lemma EmptyObject(v: Value)
    requires v.Obj? && |v.fields| == 0
    ensures Print(v) == "{}"
  {
    assert KeyOrder(v.fields.Keys) == [];
    assert "{" + "}" == "{}";
  }

  lemma PrintedObject(v: Value, keys: seq<string>, parts: seq<string>)
    requires v.Obj? && keys == KeyOrder(v.fields.Keys) && |parts| == |keys| > 0
    requires forall j :: 0 <= j < |keys| ==> keys[j] in v.fields && parts[j] == Member(v, keys[j])
    ensures "{" + Join(parts) + "}" == Print(v)
  {
    JoinMembers(v, keys, parts);
    assert "{" + Join(parts) + "}" == "{" + (Join(parts) + "}");
  }

  lemma SortedKeys(fields: map<string, Value>, keys: seq<string>)
    requires fields != map[] && Ascending(keys) && Elements(keys) == fields.Keys
    ensures keys == KeyOrder(fields.Keys) && keys != []
  {
    AscendingUnique(keys, KeyOrder(fields.Keys));
    var k :| k in fields;
    assert k in Elements(keys);
  }

  method MemberParts(v: Value, keys: seq<string>) returns (parts: seq<string>)
    requires v.Obj? && Elements(keys) <= v.fields.Keys
    ensures |parts| == |keys|
    ensures forall j :: 0 <= j < |keys| ==> keys[j] in v.fields && parts[j] == Member(v, keys[j])
    decreases v, 0
  {
    parts := [];
    for i := 0 to |keys|
      invariant |parts| == i
      invariant forall j :: 0 <= j < i ==>
        keys[j] in v.fields && parts[j] == Member(v, keys[j])
    {
      assert keys[i] in Elements(keys);
      var canonical := CanonicalizeValue(v.fields[keys[i]]);
      parts := parts + [Quote(keys[i]) + ":" + canonical];
    }
  }

  /** Ranging over a Go map yields each key once, in any order. */
  method RangeKeys(m: map<string, Value>) returns (keys: seq<string>)
    ensures Elements(keys) == m.Keys
    ensures forall i, j :: 0 <= i < j < |keys| ==> keys[i] != keys[j]
  {
    keys := [];
    var todo := m.Keys;
    while todo != {}
      invariant todo <= m.Keys && Elements(keys) == m.Keys - todo
      invariant forall i, j :: 0 <= i < j < |keys| ==> keys[i] != keys[j]
      invariant forall i :: 0 <= i < |keys| ==> keys[i] !in todo
      decreases todo
    {
      var k :| k in todo;
      assert Elements(keys + [k]) == Elements(keys) + {k};
      keys, todo := keys + [k], todo - {k};
    }
  }
}
