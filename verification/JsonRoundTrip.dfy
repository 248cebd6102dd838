/** The canonical text of a value is JSON that reads back as the value. */
module JsonRoundTrip {
  import opened Canonical
  import opened Common
  import opened Json
  import opened Text

  // ----- Numbers -----

  lemma DigitReads(d: nat)
    requires d < 10
    ensures DigitValue(DigitChar(d)) == Some(d)
  {
  }

  lemma {:induction false} DecimalReads(n: nat)
    ensures Whole(Decimal(n)) && ReadNat(Decimal(n)) == n
    ensures Decimal(n)[0] == '0' ==> n == 0
  {
    if n < 10 {
      DigitReads(n);
      assert [DigitChar(n)][..0] == [];
    } else {
      DecimalReads(n / 10);
      DigitReads(n % 10);
      var s, init := Decimal(n), Decimal(n / 10);
      assert s[..|s| - 1] == init && s[|s| - 1] == DigitChar(n % 10) && s[0] == init[0];
    }
  }

  lemma {:induction false} FindAbsent(s: string, c: char)
    requires c !in s
    ensures Find(s, c) == |s|
  {
    if s != [] {
      assert s[0] in s && forall x :: x in s[1..] ==> x in s;
      FindAbsent(s[1..], c);
    }
  }

  lemma {:induction false} FindFirst(a: string, c: char, b: string)
    requires c !in a
    ensures Find(a + [c] + b, c) == |a|
  {
    if a != [] {
      assert a[0] in a && forall x :: x in a[1..] ==> x in a;
      FindFirst(a[1..], c, b);
      assert (a + [c] + b)[1..] == a[1..] + [c] + b;
    }
  }

  lemma DigitsPlain(s: string)
    requires Digits(s)
    ensures '.' !in s && '-' !in s
  {
  }

  lemma WholeReads(digits: string)
    requires Whole(digits)
    ensures ReadNumber(digits) == Some(Int(ReadNat(digits)))
  {
    DigitsPlain(digits);
    FindAbsent(digits, '.');
    assert digits[0] in digits && digits[..|digits|] == digits;
  }

  lemma NegativeReads(digits: string)
    requires Whole(digits)
    ensures ReadNumber("-" + digits) == Some(Int(0 - ReadNat(digits)))
  {
    DigitsPlain(digits);
    FindAbsent(digits, '.');
    assert ("-" + digits)[1..] == digits && digits[..|digits|] == digits;
  }

  lemma IntReads(n: int)
    ensures ReadNumber(FormatInt(n)) == Some(Int(n))
  {
    if n < 0 {
      DecimalReads(-n);
      NegativeReads(Decimal(-n));
    } else {
      DecimalReads(n);
      WholeReads(Decimal(n));
    }
  }

  lemma FractionReads(frac: Fraction)
    ensures Digits(FracText(frac)) && ReadDigits(FracText(frac)) == frac
  {
    forall i | 0 <= i < |frac|
      ensures DigitValue(FracText(frac)[i]) == Some(frac[i])
    {
      DigitReads(frac[i]);
    }
  }

  lemma PointReads(neg: bool, whole: string, frac: string)
    requires Whole(whole) && Digits(frac) && frac != ""
    ensures ReadNumber((if neg then "-" else "") + whole + ("." + frac)) ==
      Some(Dec(neg, ReadNat(whole), ReadDigits(frac)))
  {
    var body := whole + ['.'] + frac;
    var text := (if neg then "-" else "") + whole + ("." + frac);
    DigitsPlain(whole);
    FindFirst(whole, '.', frac);
    assert whole[0] in whole;
    assert text == (if neg then "-" else "") + body;
    assert text[0] == '-' <==> neg;
    assert (if neg then text[1..] else text) == body;
    assert body[..|whole|] == whole && body[|whole| + 1..] == frac;
  }

  lemma DecReads(neg: bool, whole: nat, frac: Fraction)
    ensures ReadNumber(DecText(neg, whole, frac)) == Some(Dec(neg, whole, frac))
  {
    DecimalReads(whole);
    FractionReads(frac);
    PointReads(neg, Decimal(whole), FracText(frac));
  }

  lemma {:induction false} NumberEnds(token: string, s: string)
    requires AllIn(token, NumberChar) && Stops(s)
    ensures NumberLength(token + s) == |token|
  {
    if token == "" {
      assert token + s == s;
    } else {
      NumberEnds(token[1..], s);
      assert (token + s)[1..] == token[1..] + s;
      assert NumberChar(token[0]);
    }
  }

  lemma TokenReads(token: string, s: string, number: Value)
    requires token != "" && AllIn(token, NumberChar) && Stops(s) && ReadNumber(token) == Some(number)
    ensures ReadValue(token + s) == Some((number, s))
  {
    var text := token + s;
    NumberEnds(token, s);
    assert text[0] == token[0] && NumberChar(token[0]);
    NotAWord(text);
    assert text[..|token|] == token && text[|token|..] == s;
  }

  lemma NumberReads(v: Value, s: string)
    requires Numeric(v) && Stops(s)
    ensures ReadValue(Print(v) + s) == Some((v, s))
  {
    PrintHead(v);
    NumberText(v);
    if v.Int? {
      IntReads(v.n);
    } else {
      DecReads(v.neg, v.whole, v.frac);
    }
    TokenReads(Print(v), s, v);
  }

  lemma NotAWord(s: string)
    requires s != [] && s[0] != 'n' && s[0] != 't' && s[0] != 'f'
    ensures !("null" <= s) && !("true" <= s) && !("false" <= s)
  {
  }

  // ----- Strings -----

  lemma HexReads(n: nat)
    requires n < 0x10000 && (n < 0xD800 || n >= 0xE000)
    ensures ReadHex(Hex4(n)) == Some(n as char)
  {
    var a, b, c, d := n / 16 / 16 / 16, n / 16 / 16 % 16, n / 16 % 16, n % 16;
    HexDigitReads(a);
    HexDigitReads(b);
    HexDigitReads(c);
    HexDigitReads(d);
    assert ((a * 16 + b) * 16 + c) * 16 + d == n;
  }

  lemma HexDigitReads(d: nat)
    requires d < 16
    ensures HexValue(HexChar(d)) == Some(d)
  {
  }

  lemma CharReads(c: char, s: string)
    ensures Escape(c) + s != [] && ReadChar(Escape(c) + s) == Some((c, s))
  {
    var text := Escape(c) + s;
    assert text[|Escape(c)|..] == s;
    if HexEscaped(c) && c != '"' && c != '\\' {
      HexReads(c as int);
      assert text[2..6] == Hex4(c as int);
    }
  }

  /** How Go writes a character in a string: by itself, with one of five short escapes, or with four
      lower-case hexadecimal digits, which HexReads says are those of its code. */
  lemma EscapeShape(c: char)
    ensures match c
      case '"' => Escape(c) == ['\\', '"']
      case '\\' => Escape(c) == ['\\', '\\']
      case '\n' => Escape(c) == ['\\', 'n']
      case '\r' => Escape(c) == ['\\', 'r']
      case '\t' => Escape(c) == ['\\', 't']
      case _ =>
        if c as int < 32 || c in "<>&" || c as int == 0x2028 || c as int == 0x2029
        then
          && |Escape(c)| == 6 && Escape(c)[..2] == ['\\', 'u'] && ReadHex(Escape(c)[2..]) == Some(c)
          && forall i :: 2 <= i < 6 ==> '0' <= Escape(c)[i] <= '9' || 'a' <= Escape(c)[i] <= 'f'
        else Escape(c) == [c]
  {
    if HexEscaped(c) && c != '"' && c != '\\' {
      assert Escape(c)[2..] == Hex4(c as int);
      HexReads(c as int);
    }
  }

  lemma {:induction false} BodyReads(text: string, s: string)
    ensures ReadString(Body(text) + s) == Some((text, s))
    decreases |text|
  {
    var u, rest := BodyHead(text, s);
    if text != [] {
      CharReads(text[0], rest);
      BodyReads(text[1..], s);
      assert text == [text[0]] + text[1..];
    }
  }

  lemma DropFirstChar(c: char, a: string, s: string)
    ensures ([c] + a + s)[1..] == a + s && ([c] + a + s)[0] == c
  {
  }

  lemma QuoteReads(text: string, s: string)
    ensures var u := Quote(text) + s; u[0] == '"' && ReadString(u[1..]) == Some((text, s))
  {
    BodyReads(text, s);
    DropFirstChar('"', Body(text), s);
  }

  // ----- Values -----

  lemma WordAt(word: string, s: string)
    requires word != ""
    ensures word <= word + s && (word + s)[|word|..] == s && (word + s)[0] == word[0]
  {
  }

  lemma WordReads(v: Value, s: string)
    requires v.Null? || v.Bool?
    ensures ReadValue(Print(v) + s) == Some((v, s))
  {
    var text := Print(v) + s;
    WordAt(Print(v), s);
    assert !v.Null? ==> !("null" <= text);
    assert v == Bool(false) ==> !("true" <= text);
  }

  /** Reading back: the value, and whatever legally follows it. */
  lemma {:induction false} ValueReads(v: Value, s: string)
    requires Stops(s)
    ensures ReadValue(Print(v) + s) == Some((v, s))
    decreases v, 1
  {
    if Numeric(v) {
      NumberReads(v, s);
    } else if v.Null? || v.Bool? {
      WordReads(v, s);
    } else if v.Str? {
      QuoteReads(v.text, s);
      NotAWord(Print(v) + s);
    } else if v.Arr? {
      ItemsRead(v.items, true, s);
      DropFirstChar('[', Items(v.items, true), s);
      NotAWord(Print(v) + s);
    } else {
      ObjectReads(v, s);
      MapReads(v);
      NotAWord(Print(v) + s);
    }
  }

  lemma {:induction false} ItemsRead(items: seq<Value>, first: bool, s: string)
    requires Stops(s)
    ensures ReadItems(Items(items, first) + s, first) == Some((items, s))
    decreases items
  {
    var u, tail := ItemsHead(items, first, s);
    if items != [] {
      var _, _ := ItemsHead(items[1..], false, s);
      ValueReads(items[0], tail);
      ItemsRead(items[1..], false, s);
      assert items == [items[0]] + items[1..];
    }
  }

  ghost function FieldsOf(v: Value, keys: seq<string>): (fields: seq<Field>)
    requires v.Obj? && Elements(keys) <= v.fields.Keys
    ensures |fields| == |keys|
  {
    seq(|keys|, i requires 0 <= i < |keys| =>
      assert keys[i] in Elements(keys);
      Field(keys[i], v.fields[keys[i]]))
  }

  lemma MemberReads(name: string, value: Value, text: string, tail: string)
    requires ReadValue(text) == Some((value, tail))
    ensures ReadMember(Quote(name) + (":" + text)) == Some((Field(name, value), tail))
  {
    QuoteReads(name, ":" + text);
    assert (":" + text)[1..] == text;
  }

  lemma FieldsFirst(v: Value, keys: seq<string>)
    requires v.Obj? && Elements(keys) <= v.fields.Keys && keys != []
    ensures keys[0] in Elements(keys) && Elements(keys[1..]) <= Elements(keys)
    ensures FieldsOf(v, keys) == [Field(keys[0], v.fields[keys[0]])] + FieldsOf(v, keys[1..])
  {
    assert keys[0] in Elements(keys);
  }

  lemma {:induction false} MembersRead(v: Value, keys: seq<string>, first: bool, s: string)
    requires v.Obj? && Elements(keys) <= v.fields.Keys && Stops(s)
    ensures ReadMembers(Members(v, keys, first) + s, first) == Some((FieldsOf(v, keys), s))
    decreases v, 0, |keys|
  {
    var u, value, tail := MembersHead(v, keys, first, s);
    if keys != [] {
      var _, _, _ := MembersHead(v, keys[1..], false, s);
      ValueReads(v.fields[keys[0]], tail);
      MemberReads(keys[0], v.fields[keys[0]], value, tail);
      MembersRead(v, keys[1..], false, s);
      FieldsFirst(v, keys);
      if !first {
        MembersComma(v, keys);
      }
      MembersNext(u, first, Field(keys[0], v.fields[keys[0]]), tail, FieldsOf(v, keys[1..]), s);
    }
  }

  lemma MembersNext(u: string, first: bool, field: Field, tail: string, more: seq<Field>, s: string)
    requires u != [] && u[0] != '}' && (!first ==> u[0] == ',')
    requires ReadMember(u[if first then 0 else 1..]) == Some((field, tail))
    requires ReadMembers(tail, false) == Some((more, s))
    ensures ReadMembers(u, first) == Some(([field] + more, s))
  {
    assert u[0..] == u;
  }

  lemma {:induction false} FieldsMap(v: Value, keys: seq<string>)
    requires v.Obj? && Elements(keys) <= v.fields.Keys
    ensures ToMap(FieldsOf(v, keys)).Keys == Elements(keys)
    ensures forall k :: k in keys ==> k in ToMap(FieldsOf(v, keys)) && ToMap(FieldsOf(v, keys))[k] == v.fields[k]
  {
    if keys != [] {
      assert Elements(keys) == {keys[0]} + Elements(keys[1..]);
      FieldsFirst(v, keys);
      FieldsMap(v, keys[1..]);
    }
  }

  lemma MapReads(v: Value)
    requires v.Obj?
    ensures ToMap(FieldsOf(v, KeyOrder(v.fields.Keys))) == v.fields
  {
    var keys := KeyOrder(v.fields.Keys);
    FieldsMap(v, keys);
    SameFields(ToMap(FieldsOf(v, keys)), v.fields, keys);
  }

  lemma ObjectReads(v: Value, s: string)
    requires v.Obj? && Stops(s)
    ensures (Print(v) + s)[0] == '{'
    ensures ReadMembers((Print(v) + s)[1..], true) == Some((FieldsOf(v, KeyOrder(v.fields.Keys)), s))
    decreases v, 0
  {
    var keys := KeyOrder(v.fields.Keys);
    MembersRead(v, keys, true, s);
    DropFirstChar('{', Members(v, keys, true), s);
  }

  /** The canonical text of a value is JSON, and reads back as the value. */
  lemma PrintReads(v: Value)
    ensures Read(Print(v)) == Some(v)
  {
    ValueReads(v, "");
    assert Print(v) + "" == Print(v);
  }

  /** These fields name every key of the object once, with its value, in the order of Lexical. */
  ghost predicate Ordered(v: Value, fields: seq<Field>)
    requires v.Obj?
  {
    && (forall i, j :: 0 <= i < j < |fields| ==> Lexical(fields[i].name, fields[j].name))
    && (forall i :: 0 <= i < |fields| ==>
          fields[i].name in v.fields && fields[i].value == v.fields[fields[i].name])
    && forall k :: k in v.fields ==> exists i :: 0 <= i < |fields| && fields[i].name == k
  }

  lemma FieldsOrdered(v: Value)
    requires v.Obj?
    ensures Ordered(v, FieldsOf(v, KeyOrder(v.fields.Keys)))
  {
    var keys := KeyOrder(v.fields.Keys);
    var fields := FieldsOf(v, keys);
    forall i, j | 0 <= i < j < |fields|
      ensures Lexical(fields[i].name, fields[j].name)
    {
      KeysLexical(v.fields.Keys, i, j);
    }
    assert forall i :: 0 <= i < |fields| ==> keys[i] in Elements(keys);
    forall k | k in v.fields
      ensures exists i :: 0 <= i < |fields| && fields[i].name == k
    {
      assert k in Elements(keys);
      var i :| 0 <= i < |keys| && keys[i] == k;
      assert fields[i].name == k;
    }
  }

  lemma NamesRead(v: Value)
    requires v.Obj?
    ensures ReadObject(Print(v)) == Some(FieldsOf(v, KeyOrder(v.fields.Keys)))
  {
    ObjectReads(v, "");
    assert Print(v) + "" == Print(v);
  }

  /** The members of a printed object stand in the order of their names, each once. */
  lemma PrintedNames(v: Value)
    requires v.Obj?
    ensures ReadObject(Print(v)).Some? && Ordered(v, ReadObject(Print(v)).value)
  {
    NamesRead(v);
    FieldsOrdered(v);
  }
}
