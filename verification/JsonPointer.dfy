/**
 JSON navigation: pointers in the manner of RFC 6901, the outline of a document, and the search
 for keys and values.
 */
module JsonPointer {
  import opened Text

  /** An object is its members in the order of their keys, in which both walks visit them. */
  datatype Json = Object(members: seq<Member>) | Array(items: seq<Json>) | Scalar(typeName: string, text: string)

  datatype Member = Member(key: string, value: Json)

  datatype PointerError = BadPointer | BadEscape | NotFound | BadIndex | NotContainer

  function Size(v: Json): nat {
    match v
    case Object(members) => |members|
    case Array(items) => |items|
    case Scalar(_, _) => 0
  }

  function ValueAt(v: Json, i: nat): (w: Json)
    requires i < Size(v)
    ensures w < v
  {
    if v.Object? then v.members[i].value else v.items[i]
  }

  /** The token that leads to a child: its key, or its index in decimal. */
  function TokenAt(v: Json, i: nat): string
    requires i < Size(v)
  {
    if v.Object? then v.members[i].key else Itoa(i)
  }

  /** Keys are distinct, and lengths fit Go's `int`. */
  predicate WellFormed(v: Json) {
    && Size(v) <= MAX_INT
    && (v.Object? ==> forall i, j :: 0 <= i < j < |v.members| ==> v.members[i].key != v.members[j].key)
    && forall i :: 0 <= i < Size(v) ==> WellFormed(ValueAt(v, i))
  }

  // ------------------------------------------------------------------------ tokens

  function Escape(s: string): string {
    ReplaceAll(ReplaceAll(s, '~', "~0"), '/', "~1")
  }

  function Unescape(s: string): Result<string, PointerError> {
    if s == "" then Ok("")
    else if s[0] != '~' then Prepend(s[0], Unescape(s[1..]))
    else if |s| < 2 || (s[1] != '0' && s[1] != '1') then Err(BadEscape)
    else Prepend(if s[1] == '0' then '~' else '/', Unescape(s[2..]))
  }

  function Prepend(c: char, r: Result<string, PointerError>): Result<string, PointerError> {
    if r.Ok? then Ok([c] + r.value) else r
  }

  function Append(s: string, r: Result<string, PointerError>): Result<string, PointerError> {
    if r.Ok? then Ok(s + r.value) else r
  }

  method UnescapeToken(s: string) returns (r: Result<string, PointerError>)
    ensures r == Unescape(s)
  {
    var b := "";
    var i := 0;
    assert s[0..] == s;
    AppendNothing(Unescape(s));
    while i < |s|
      invariant i <= |s| && Unescape(s) == Append(b, Unescape(s[i..]))
    {
      assert s[i..][1..] == s[i + 1..];
      if s[i] != '~' {
        AppendSnoc(b, s[i], Unescape(s[i + 1..]));
        b := b + [s[i]];
        i := i + 1;
        continue;
      }
      if i + 1 >= |s| {
        return Err(BadEscape);
      }
      assert s[i..][1] == s[i + 1] && s[i..][2..] == s[i + 2..];
      if s[i + 1] == '0' {
        AppendSnoc(b, '~', Unescape(s[i + 2..]));
        b := b + ['~'];
      } else if s[i + 1] == '1' {
        AppendSnoc(b, '/', Unescape(s[i + 2..]));
        b := b + ['/'];
      } else {
        return Err(BadEscape);
      }
      i := i + 2;
    }
    assert s[|s|..] == "" && b + "" == b;
    return Ok(b);
  }

  lemma AppendNothing(r: Result<string, PointerError>)
    ensures Append("", r) == r
  {
    if r.Ok? {
      assert "" + r.value == r.value;
    }
  }

  lemma AppendSnoc(b: string, c: char, r: Result<string, PointerError>)
    ensures Append(b, Prepend(c, r)) == Append(b + [c], r)
  {
    if r.Ok? {
      assert b + ([c] + r.value) == b + [c] + r.value;
    }
  }

  /** What one byte of a token becomes. */
  function EscapeByte(c: char): string {
    if c == '~' then "~0" else if c == '/' then "~1" else [c]
  }

  lemma ReplaceSum(a: string, b: string, c: char, with: string)
    ensures ReplaceAll(a + b, c, with) == ReplaceAll(a, c, with) + ReplaceAll(b, c, with)
  {
    if a == "" {
      assert a + b == b;
    } else {
      assert (a + b)[1..] == a[1..] + b;
      ReplaceSum(a[1..], b, c, with);
    }
  }

  lemma EscapeStep(s: string)
    requires s != ""
    ensures Escape(s) == EscapeByte(s[0]) + Escape(s[1..])
  {
    var first := if s[0] == '~' then "~0" else [s[0]];
    var rest := ReplaceAll(s[1..], '~', "~0");
    ReplaceSum(first, rest, '/', "~1");
    OneByte(s[0]);
  }

  lemma OneByte(c: char)
    ensures ReplaceAll(if c == '~' then "~0" else [c], '/', "~1") == EscapeByte(c)
  {
    assert "~0"[1..] == "0" && "0"[1..] == "" && [c][1..] == "";
    assert "~" + ("0" + "") == "~0" && [c] + "" == [c] && "~1" + "" == "~1";
    assert ReplaceAll("0", '/', "~1") == "0";
  }

  /** Unescaping undoes escaping, and an escaped token holds no slash. */
  lemma {:induction false} UnescapeEscape(s: string)
    ensures Unescape(Escape(s)) == Ok(s) && '/' !in Escape(s)
  {
    hide Escape, Unescape;
    if s == "" {
      assert Escape("") == "" && Unescape("") == Ok("") by { NothingEscaped(); }
    } else {
      EscapeStep(s);
      UnescapeEscape(s[1..]);
      UnescapeByte(s[0], Escape(s[1..]));
      assert s == [s[0]] + s[1..];
    }
  }

  lemma NothingEscaped()
    ensures Escape("") == "" && Unescape("") == Ok("")
  {
  }

  lemma UnescapeByte(c: char, rest: string)
    ensures Unescape(EscapeByte(c) + rest) == Prepend(c, Unescape(rest)) && '/' !in EscapeByte(c)
  {
    var e := EscapeByte(c);
    assert (e + rest)[|e|..] == rest && (e + rest)[0] == e[0];
    assert |e| == 2 ==> (e + rest)[1] == e[1];
  }

  /** Escaping undoes unescaping, too: a token without a slash is the only spelling of what it
      stands for. */
  lemma {:induction false} EscapeUnescape(s: string)
    requires Unescape(s).Ok? && '/' !in s
    ensures Escape(Unescape(s).value) == s
    decreases |s|
  {
    if s != "" {
      var n := if s[0] == '~' then 2 else 1;
      EscapeUnescape(s[n..]);
      var t := Unescape(s).value;
      assert t[1..] == Unescape(s[n..]).value;
      EscapeStep(t);
      assert s == s[..n] + s[n..] && EscapeByte(t[0]) == s[..n];
    }
  }

  // ----------------------------------------------------------------------- indices

  /** Go's `strconv.Atoi`. */
  function ParseInt(part: string): (r: Option<int>)
    ensures r.Some? ==> -MAX_INT - 1 <= r.value <= MAX_INT
  {
    var signed := part != "" && (part[0] == '-' || part[0] == '+');
    var digits := if signed then part[1..] else part;
    if digits == "" || !AllDigits(digits) then None
    else
      var n: int := DecimalValue(digits);
      if signed && part[0] == '-' then (if n > MAX_INT + 1 then None else Some(-n))
      else if n > MAX_INT then None else Some(n)
  }

  function ItemAt(items: seq<Json>, part: string): Result<Json, PointerError> {
    if part == "" then Err(BadIndex)
    else
      var i := ParseInt(part);
      if i.None? || i.value < 0 || i.value >= |items| then Err(BadIndex) else Ok(items[i.value])
  }

  /** An array index as section 4 of RFC 6901 has it: digits without a leading zero. */
  predicate IsPlainIndex(part: string) {
    part != "" && AllDigits(part) && (|part| == 1 || part[0] != '0')
  }

  function PlainItemAt(items: seq<Json>, part: string): Result<Json, PointerError> {
    if IsPlainIndex(part) && DecimalValue(part) < |items| then Ok(items[DecimalValue(part)]) else Err(BadIndex)
  }

  lemma {:induction false} ItoaIsPlain(n: nat)
    ensures IsPlainIndex(Itoa(n)) && (Itoa(n)[0] == '0' ==> n == 0)
  {
    if n >= 10 {
      ItoaIsPlain(n / 10);
      assert Itoa(n)[0] == Itoa(n / 10)[0];
    }
  }

  lemma DivideByTen(n: nat, digit: nat)
    requires digit < 10
    ensures (10 * n + digit) / 10 == n && (10 * n + digit) % 10 == digit
  {
  }

  lemma ItoaMore(n: nat, d: char)
    requires IsDigit(d) && n > 0
    ensures Itoa(10 * n + DigitValue(d)) == Itoa(n) + [d]
  {
    DivideByTen(n, DigitValue(d));
  }

  /** The plain indices are the decimal renderings. */
  lemma {:induction false} PlainIsItoa(part: string)
    requires IsPlainIndex(part)
    ensures part == Itoa(DecimalValue(part)) && (DecimalValue(part) == 0 ==> part[0] == '0')
    decreases |part|
  {
    hide DecimalValue, Itoa;
    var n := |part| - 1;
    if n > 0 {
      PlainIsItoa(part[..n]);
      ItoaMore(DecimalValue(part[..n]), part[n]);
      assert part == part[..n] + [part[n]];
    } else {
      assert part == [part[0]];
      OneDigit(part[0]);
    }
  }

  lemma OneDigit(d: char)
    requires IsDigit(d)
    ensures DecimalValue([d]) == DigitValue(d) && Itoa(DigitValue(d)) == [d]
  {
    assert [d][..0] == "";
  }

  lemma ItemAtIndex(items: seq<Json>, i: nat)
    requires i < |items| <= MAX_INT
    ensures ItemAt(items, Itoa(i)) == Ok(items[i])
  {
    ItoaIsPlain(i);
  }

  function Zeros(n: nat): string {
    seq(n, _ => '0')
  }

  /** What may stand before the digits of an index. */
  predicate IsSign(sign: string, i: nat) {
    sign == "" || sign == "+" || (sign == "-" && i == 0)
  }

  /** `part` is the number `i`, perhaps with a sign and with leading zeros. */
  ghost predicate Spells(part: string, i: nat) {
    exists sign, z: nat :: IsSign(sign, i) && part == sign + (Zeros(z) + Itoa(i))
  }

  lemma ZeroValue(z: nat)
    ensures AllDigits(Zeros(z)) && DecimalValue(Zeros(z)) == 0
  {
    if z > 0 {
      ZeroValue(z - 1);
      assert Zeros(z)[..z - 1] == Zeros(z - 1);
    }
  }

  lemma {:induction false} ZerosAddNothing(z: nat, s: string)
    requires s != "" && AllDigits(s)
    ensures AllDigits(Zeros(z) + s) && DecimalValue(Zeros(z) + s) == DecimalValue(s)
    decreases |s|
  {
    hide Zeros;
    ZeroValue(z);
    var n := |s| - 1;
    var all := Zeros(z) + s;
    assert all[..|all| - 1] == Zeros(z) + s[..n] && all[|all| - 1] == s[n];
    if n > 0 {
      ZerosAddNothing(z, s[..n]);
    } else {
      assert s[..n] == "" && Zeros(z) + s[..n] == Zeros(z);
    }
  }

  /** One digit more. */
  lemma DigitMore(front: string, d: char)
    requires AllDigits(front) && IsDigit(d)
    ensures AllDigits(front + [d]) && DecimalValue(front + [d]) == 10 * DecimalValue(front) + DigitValue(d)
  {
    hide DigitValue;
    var s := front + [d];
    assert AllDigits(s) && s[..|s| - 1] == front && s[|s| - 1] == d;
  }

  /** `d` is the rendering of its value, after `z` zeros. */
  ghost predicate Padded(d: string, z: nat) {
    AllDigits(d) && d == Zeros(z) + Itoa(DecimalValue(d))
  }

  /** Digits are the rendering of their value, after some zeros. */
  lemma {:induction false} DigitsSpell(d: string) returns (z: nat)
    requires d != "" && AllDigits(d)
    ensures Padded(d, z)
    decreases |d|
  {
    var n := |d| - 1;
    assert d == d[..n] + [d[n]];
    if n == 0 {
      z := 0;
      OneDigit(d[0]);
      hide Itoa, DecimalValue;
      assert d == [d[0]] && Zeros(0) + d == d;
    } else {
      z := DigitsSpell(d[..n]);
      z := PaddedMore(d[..n], z, d[n]);
    }
  }

  lemma PaddedMore(front: string, z: nat, c: char) returns (y: nat)
    requires Padded(front, z) && IsDigit(c)
    ensures Padded(front + [c], y)
  {
    hide DecimalValue, DigitValue, Itoa;
    DigitMore(front, c);
    var v := DecimalValue(front);
    y := z;
    if v > 0 {
      ItoaMore(v, c);
      assert Zeros(z) + Itoa(v) + [c] == Zeros(z) + (Itoa(v) + [c]);
    } else {
      y := z + 1;
      OneDigit(c);
      ZeroIsOneDigit();
      assert Zeros(z) + "0" == Zeros(z + 1);
    }
  }

  lemma ZeroIsOneDigit()
    ensures Itoa(0) == "0"
  {
  }

  lemma ParseSigned(sign: string, digits: string, i: nat)
    requires IsSign(sign, i) && digits != "" && AllDigits(digits) && DecimalValue(digits) == i <= MAX_INT
    ensures ParseInt(sign + digits) == Some(i)
  {
    hide DecimalValue;
    if sign == "" {
      assert sign + digits == digits && IsDigit(digits[0]);
    } else {
      assert (sign + digits)[1..] == digits && (sign + digits)[0] == sign[0];
    }
  }

  /** The tokens that are read as the index `i`. */
  lemma SpellingsOfIndex(part: string, i: nat)
    requires i <= MAX_INT
    ensures ParseInt(part) == Some(i) <==> Spells(part, i)
  {
    hide Itoa, Zeros, DecimalValue, AllDigits;
    if ParseInt(part) == Some(i) {
      var signed := part[0] == '-' || part[0] == '+';
      var digits := if signed then part[1..] else part;
      var z := DigitsSpell(digits);
      var sign := if signed then part[..1] else "";
      assert part == sign + digits && DecimalValue(digits) == i;
      assert digits == Zeros(z) + Itoa(i) && IsSign(sign, i);
      assert Spells(part, i);
    }
    if sign, z: nat :| IsSign(sign, i) && part == sign + (Zeros(z) + Itoa(i)) {
      ZerosAddNothing(z, Itoa(i));
      ParseSigned(sign, Zeros(z) + Itoa(i), i);
    }
  }

  /** An index is read as the standard has it, unless it stands for an item and is spelled with a
      sign or with leading zeros. */
  lemma IndexAgreesWithStandard(items: seq<Json>, part: string)
    requires |items| <= MAX_INT
    ensures ItemAt(items, part) == PlainItemAt(items, part)
            <==> IsPlainIndex(part) || forall i: nat :: Spells(part, i) ==> i >= |items|
  {
    hide DecimalValue, Spells;
    forall i: nat | i < |items| ensures ParseInt(part) == Some(i) <==> Spells(part, i) {
      SpellingsOfIndex(part, i);
    }
    var i := ParseInt(part);
    if i.Some? && 0 <= i.value < |items| {
      assert Spells(part, i.value);
    }
  }

  lemma LooseIndexIsAccepted()
    ensures ItemAt([Scalar("null", "null")], "-00") == Ok(Scalar("null", "null"))
    ensures PlainItemAt([Scalar("null", "null")], "-00") == Err(BadIndex)
  {
    assert "-00"[1..] == "00" && "00"[..1] == "0" && "0"[..0] == "";
    assert DecimalValue("0") == 0;
    assert DecimalValue("00") == 0;
  }

  // ---------------------------------------------------------------------- pointers

  function Lookup(members: seq<Member>, key: string): Result<Json, PointerError> {
    if members == [] then Err(NotFound)
    else if members[0].key == key then Ok(members[0].value)
    else Lookup(members[1..], key)
  }

  function Child(v: Json, token: string): Result<Json, PointerError> {
    match v
    case Object(members) => Lookup(members, token)
    case Array(items) => ItemAt(items, token)
    case Scalar(_, _) => Err(NotContainer)
  }

  function Descend(v: Json, part: string): Result<Json, PointerError> {
    var token := Unescape(part);
    if token.Err? then Err(token.error) else Child(v, token.value)
  }

  function ResolveParts(v: Json, parts: seq<string>): Result<Json, PointerError>
    decreases |parts|
  {
    if parts == [] then Ok(v)
    else
      var next := Descend(v, parts[0]);
      if next.Err? then next else ResolveParts(next.value, parts[1..])
  }

  function Resolve(root: Json, pointer: string): Result<Json, PointerError> {
    if pointer == "" then Ok(root)
    else if pointer[0] != '/' then Err(BadPointer)
    else ResolveParts(root, SplitOn(pointer[1..], '/'))
  }

  method ResolveJSONPointer(root: Json, pointer: string) returns (r: Result<Json, PointerError>)
    ensures r == Resolve(root, pointer)
  {
    if pointer == "" {
      return Ok(root);
    }
    if pointer[0] != '/' {
      return Err(BadPointer);
    }
    var parts := SplitOn(pointer[1..], '/');
    var cur := root;
    hide SplitOn, Unescape, ResolveParts, Descend;
    assert parts[0..] == parts;
    for i := 0 to |parts|
      invariant ResolveParts(root, parts) == ResolveParts(cur, parts[i..])
    {
      var part := UnescapeToken(parts[i]);
      if part.Err? {
        return Err(part.error);
      }
      match cur
      case Object(members) =>
        var next := Lookup(members, part.value);
        if next.Err? {
          return next;
        }
        cur := next.value;
      case Array(items) =>
        if part.value == "" {
          return Err(BadIndex);
        }
        var idx := ParseInt(part.value);
        if idx.None? || idx.value < 0 || idx.value >= |items| {
          return Err(BadIndex);
        }
        cur := items[idx.value];
      case Scalar(_, _) =>
        return Err(NotContainer);
    }
    return Ok(cur);
  }

  function JoinPointer(base: string, token: string): string {
    base + "/" + Escape(token)
  }

  lemma {:induction false} SplitSum(a: string, b: string, sep: char)
    ensures SplitOn(a + [sep] + b, sep) == SplitOn(a, sep) + SplitOn(b, sep)
  {
    var s := a + [sep] + b;
    if a == "" {
      assert s[1..] == b && SplitOn(s, sep) == [""] + SplitOn(b, sep);
    } else {
      var rest := a[1..] + [sep] + b;
      assert s == [a[0]] + rest && a == [a[0]] + a[1..];
      SplitSum(a[1..], b, sep);
      hide SplitOn;
    }
  }

  lemma {:induction false} SplitNothing(s: string, sep: char)
    requires sep !in s
    ensures SplitOn(s, sep) == [s]
  {
    if s != "" {
      SplitNothing(s[1..], sep);
      assert s == [s[0]] + s[1..];
    }
  }

  lemma {:induction false} ResolvePartsSnoc(v: Json, parts: seq<string>, last: string)
    ensures ResolveParts(v, parts + [last])
            == var r := ResolveParts(v, parts);
               if r.Err? then r else Descend(r.value, last)
    decreases |parts|
  {
    hide Descend;
    if parts == [] {
      assert parts + [last] == [last] && [last][1..] == [];
    } else {
      assert (parts + [last])[1..] == parts[1..] + [last] && (parts + [last])[0] == parts[0];
      var next := Descend(v, parts[0]);
      if next.Ok? {
        ResolvePartsSnoc(next.value, parts[1..], last);
      }
    }
  }

  /** A joined pointer leads one step further than its base, and fails as its base does. */
  lemma JoinedPointerIsOneStep(root: Json, base: string, token: string)
    ensures Resolve(root, JoinPointer(base, token))
            == var r := Resolve(root, base);
               if r.Err? then r else Child(r.value, token)
  {
    hide Escape, Unescape, ResolveParts, Child;
    UnescapeEscape(token);
    var e := Escape(token);
    SplitNothing(e, '/');
    var p := JoinPointer(base, token);
    if base == "" {
      assert p[1..] == e;
      ResolvePartsSnoc(root, [], e);
      assert [] + [e] == [e];
      assert ResolveParts(root, []) == Ok(root) by { NoParts(root); }
    } else {
      assert p[0] == base[0] && p[1..] == base[1..] + "/" + e;
      SplitSum(base[1..], e, '/');
      ResolvePartsSnoc(root, SplitOn(base[1..], '/'), e);
    }
  }

  lemma NoParts(v: Json)
    ensures ResolveParts(v, []) == Ok(v)
  {
  }

  /** A key that no member has is not found. */
  lemma {:induction false} LookupMisses(members: seq<Member>, key: string)
    ensures Lookup(members, key) == Err(NotFound) <==> forall i :: 0 <= i < |members| ==> members[i].key != key
    ensures Lookup(members, key).Err? ==> Lookup(members, key) == Err(NotFound)
  {
    if members != [] {
      LookupMisses(members[1..], key);
      assert forall i :: 1 <= i < |members| ==> members[i] == members[1..][i - 1];
      if Lookup(members[1..], key) == Err(NotFound) && members[0].key != key {
        forall i | 0 <= i < |members| ensures members[i].key != key {
          assert i > 0 ==> members[i] == members[1..][i - 1];
        }
      }
      assert forall i :: 0 <= i < |members| - 1 ==> members[1..][i] == members[i + 1];
    }
  }

  lemma {:induction false} LookupFinds(members: seq<Member>, i: nat)
    requires i < |members|
    requires forall x, y :: 0 <= x < y < |members| ==> members[x].key != members[y].key
    ensures Lookup(members, members[i].key) == Ok(members[i].value)
  {
    if i > 0 {
      LookupFinds(members[1..], i - 1);
    }
  }

  /** The token of a child leads to it. */
  lemma TokenLeadsToChild(v: Json, i: nat)
    requires WellFormed(v) && i < Size(v)
    ensures Child(v, TokenAt(v, i)) == Ok(ValueAt(v, i)) && WellFormed(ValueAt(v, i))
  {
    match v
    case Object(members) => LookupFinds(members, i);
    case Array(items) => ItemAtIndex(items, i);
  }

  /** A token leads to a child exactly when it is the child's key, or spells its index; everything
      else is an error, and so is every token at a scalar. */
  lemma ChildIsExactly(v: Json, token: string, w: Json)
    requires WellFormed(v)
    ensures Child(v, token) == Ok(w)
            <==> exists i: nat :: i < Size(v) && w == ValueAt(v, i)
                                  && if v.Object? then v.members[i].key == token else Spells(token, i)
  {
    hide WellFormed, Lookup, ItemAt, Spells;
    match v
    case Object(members) => KeyIsExactly(v, token, w);
    case Array(items) => IndexIsExactly(v, token, w);
    case Scalar(_, _) =>
  }

  lemma KeyIsExactly(v: Json, token: string, w: Json)
    requires v.Object? && WellFormed(v)
    ensures Lookup(v.members, token) == Ok(w)
            <==> exists i: nat :: i < Size(v) && w == ValueAt(v, i) && v.members[i].key == token
  {
    hide Lookup;
    LookupMisses(v.members, token);
    if i: nat :| i < |v.members| && v.members[i].key == token {
      LookupFinds(v.members, i);
      assert forall x: nat :: x < |v.members| && v.members[x].key == token ==> x == i;
      assert ValueAt(v, i) == v.members[i].value;
    }
  }

  lemma IndexIsExactly(v: Json, token: string, w: Json)
    requires v.Array? && WellFormed(v)
    ensures ItemAt(v.items, token) == Ok(w) <==> exists i: nat :: i < Size(v) && w == ValueAt(v, i) && Spells(token, i)
  {
    hide Spells, ParseInt;
    forall i: nat | i < |v.items| ensures ParseInt(token) == Some(i) <==> Spells(token, i) {
      SpellingsOfIndex(token, i);
    }
    assert ParseInt("") == None by { NoDigits(); }
    if ItemAt(v.items, token) == Ok(w) {
      var i: nat := ParseInt(token).value;
      assert Spells(token, i) && w == ValueAt(v, i);
    }
  }

  lemma NoDigits()
    ensures ParseInt("") == None
  {
  }

  /** A pointer that is not empty starts with a slash. */
  lemma UnrootedIsRefused(root: Json, pointer: string)
    requires pointer != "" && pointer[0] != '/'
    ensures Resolve(root, pointer) == Err(BadPointer)
  {
  }

  /** So the pointer made for a child resolves to it. */
  lemma ChildPointerResolves(root: Json, base: string, v: Json, i: nat)
    requires Resolve(root, base) == Ok(v) && WellFormed(v) && i < Size(v)
    ensures Resolve(root, JoinPointer(base, TokenAt(v, i))) == Ok(ValueAt(v, i)) && WellFormed(ValueAt(v, i))
  {
    hide Resolve, JoinPointer, Child, WellFormed;
    JoinedPointerIsOneStep(root, base, TokenAt(v, i));
    TokenLeadsToChild(v, i);
  }

  // ------------------------------------------------------------------------ outline

  /** `jsonType`. */
  function TypeName(v: Json): string {
    match v
    case Object(_) => "object"
    case Array(_) => "array"
    case Scalar(typeName, _) => typeName
  }

  datatype Node = Node(pointer: string, typeName: string, childrenCount: Option<nat>, truncated: bool,
                       children: seq<Node>)

  function Outline(v: Json, pointer: string, depth: int, maxDepth: int, maxChildren: int): Node
    decreases v, Size(v) + 1
  {
    if v.Scalar? then Node(pointer, TypeName(v), None, false, [])
    else if depth >= maxDepth then Node(pointer, TypeName(v), Some(Size(v)), Size(v) > 0, [])
    else Node(pointer, TypeName(v), Some(Size(v)), Size(v) > Max(0, maxChildren),
              OutlineFrom(v, 0, pointer, depth, maxDepth, maxChildren))
  }

  /** The nodes of the children from `i` on, as long as there is room. */
  function OutlineFrom(v: Json, i: nat, pointer: string, depth: int, maxDepth: int, maxChildren: int): seq<Node>
    requires i <= Size(v)
    decreases v, Size(v) - i
  {
    if i == Size(v) || i >= maxChildren then []
    else
      [Outline(ValueAt(v, i), JoinPointer(pointer, TokenAt(v, i)), depth + 1, maxDepth, maxChildren)]
      + OutlineFrom(v, i + 1, pointer, depth, maxDepth, maxChildren)
  }

  /** How far an outline goes: containers at `maxDepth` and below list nothing, those above at most
      `maxChildren` children. */
  datatype Bounds = Bounds(maxDepth: int, maxChildren: int)

  /** A node at some depth tells the truth about the document: its pointer resolves to a value of its
      type with as many children as it says; it lists, in order, as many of the first of them as the
      bounds allow, and is marked truncated exactly when some are missing; and all of that holds of
      the nodes it lists, one deeper. */
  ghost predicate Describes(n: Node, root: Json, depth: int, b: Bounds)
    decreases n
  {
    && Resolve(root, n.pointer).Ok?
    && var v := Resolve(root, n.pointer).value;
       && n.typeName == (if v.Object? then "object" else if v.Array? then "array" else v.typeName)
       && n.childrenCount == (if v.Scalar? then None else Some(Size(v)))
       && |n.children| == (if depth >= b.maxDepth then 0 else Max(0, Min(Size(v), b.maxChildren)))
       && (n.truncated <==> |n.children| < Size(v))
       && (forall i :: 0 <= i < |n.children| ==> n.children[i].pointer == JoinPointer(n.pointer, TokenAt(v, i)))
       && (forall i :: 0 <= i < |n.children| ==> Describes(n.children[i], root, depth + 1, b))
  }

  lemma NodeDescribes(n: Node, root: Json, v: Json, depth: int, b: Bounds)
    requires Resolve(root, n.pointer) == Ok(v)
    requires n.typeName == TypeName(v)
    requires n.childrenCount == (if v.Scalar? then None else Some(Size(v)))
    requires |n.children| == (if depth >= b.maxDepth then 0 else Max(0, Min(Size(v), b.maxChildren)))
    requires n.truncated <==> |n.children| < Size(v)
    requires forall i :: 0 <= i < |n.children| ==> n.children[i].pointer == JoinPointer(n.pointer, TokenAt(v, i))
    requires forall i :: 0 <= i < |n.children| ==> Describes(n.children[i], root, depth + 1, b)
    ensures Describes(n, root, depth, b)
  {
    hide Resolve, JoinPointer, TokenAt;
  }

  lemma {:induction false} OutlineDescribes(root: Json, v: Json, pointer: string,
                                            depth: int, maxDepth: int, maxChildren: int)
    requires Resolve(root, pointer) == Ok(v) && WellFormed(v)
    ensures var n := Outline(v, pointer, depth, maxDepth, maxChildren);
            Describes(n, root, depth, Bounds(maxDepth, maxChildren)) && n.pointer == pointer
    decreases v, Size(v) + 1
  {
    hide Resolve, WellFormed, Describes, OutlineFrom, JoinPointer, TokenAt, TypeName;
    if !v.Scalar? && depth < maxDepth {
      OutlineFromDescribes(root, v, 0, pointer, depth, maxDepth, maxChildren);
    }
    NodeDescribes(Outline(v, pointer, depth, maxDepth, maxChildren), root, v, depth, Bounds(maxDepth, maxChildren));
  }

  lemma {:induction false} OutlineFromDescribes(root: Json, v: Json, i: nat, pointer: string,
                                                depth: int, maxDepth: int, maxChildren: int)
    requires Resolve(root, pointer) == Ok(v) && WellFormed(v) && i <= Size(v)
    ensures var ns := OutlineFrom(v, i, pointer, depth, maxDepth, maxChildren);
            && |ns| == Max(0, Min(Size(v), maxChildren) - i)
            && DescribesFrom(root, v, i, pointer, ns, depth + 1, Bounds(maxDepth, maxChildren))
    decreases v, Size(v) - i
  {
    hide Resolve, WellFormed, JoinPointer, Describes, Outline, TokenAt;
    if i < Size(v) && i < maxChildren {
      ChildPointerResolves(root, pointer, v, i);
      var p := JoinPointer(pointer, TokenAt(v, i));
      OutlineDescribes(root, ValueAt(v, i), p, depth + 1, maxDepth, maxChildren);
      OutlineFromDescribes(root, v, i + 1, pointer, depth, maxDepth, maxChildren);
    }
  }

  /** Nodes of the children from `i` on. */
  ghost predicate DescribesFrom(root: Json, v: Json, i: nat, pointer: string, ns: seq<Node>, depth: int, b: Bounds) {
    && i + |ns| <= Size(v)
    && (forall j :: 0 <= j < |ns| ==> ns[j].pointer == JoinPointer(pointer, TokenAt(v, i + j)))
    && (forall j :: 0 <= j < |ns| ==> Describes(ns[j], root, depth, b))
  }

  // ------------------------------------------------------------------------- search

  /** `onKey` tells a match of a member's key from one of a scalar's text. */
  datatype Match = Match(pointer: string, onKey: bool, node: Json)

  /** What a key and a scalar must be to match, types included, and where to look. */
  datatype Query = Query(keyHit: (string, Json) -> bool, valueHit: Json -> bool, prefix: string)

  /** A pointer on the way to the prefix or below it, as texts go. */
  predicate Allowed(pointer: string, q: Query) {
    q.prefix == "" || pointer == "" || q.prefix <= pointer || pointer <= q.prefix
  }

  /** One of the two is the start of the other. */
  lemma AllowedIs(pointer: string, q: Query)
    ensures Allowed(pointer, q) <==> q.prefix <= pointer || pointer <= q.prefix
  {
    assert "" <= pointer && "" <= q.prefix;
  }

  function KeyMatch(v: Json, i: nat, base: string, q: Query): seq<Match>
    requires i < Size(v)
  {
    if v.Object? && q.keyHit(TokenAt(v, i), ValueAt(v, i))
    then [Match(JoinPointer(base, TokenAt(v, i)), true, ValueAt(v, i))] else []
  }

  /** All matches, depth first. */
  function Visit(v: Json, base: string, q: Query): seq<Match>
    decreases v, Size(v) + 1
  {
    if !Allowed(base, q) then []
    else if v.Scalar? then (if q.valueHit(v) then [Match(base, false, v)] else [])
    else VisitFrom(v, 0, base, q)
  }

  function VisitFrom(v: Json, i: nat, base: string, q: Query): seq<Match>
    requires i <= Size(v)
    decreases v, Size(v) - i
  {
    if i == Size(v) then []
    else
      KeyMatch(v, i, base, q) + Visit(ValueAt(v, i), JoinPointer(base, TokenAt(v, i)), q) + VisitFrom(v, i + 1, base, q)
  }

  function FirstOf(ms: seq<Match>, limit: int): (r: seq<Match>)
    ensures |r| == Max(0, Min(|ms|, limit))
  {
    ms[..Max(0, Min(|ms|, limit))]
  }

  /** Having `found`, the walk below would end with the same matches as one of `rest` would. */
  ghost predicate Awaits(all: seq<Match>, found: seq<Match>, rest: seq<Match>, limit: int) {
    FirstOf(all, limit) == FirstOf(found + rest, limit)
  }

  lemma TakeSome(all: seq<Match>, found: seq<Match>, some: seq<Match>, rest: seq<Match>, limit: int)
    requires Awaits(all, found, some + rest, limit)
    ensures Awaits(all, FirstOf(found + some, limit), rest, limit)
  {
    assert found + (some + rest) == (found + some) + rest;
    if |found + some| <= limit {
      assert FirstOf(found + some, limit) == found + some;
    } else {
      assert FirstOf(found + some + rest, limit) == FirstOf(found + some, limit);
      assert FirstOf(FirstOf(found + some, limit) + rest, limit) == FirstOf(found + some, limit);
    }
  }

  lemma Full(all: seq<Match>, found: seq<Match>, rest: seq<Match>, limit: int)
    requires Awaits(all, found, rest, limit)
    requires |found| == Max(0, limit) || (rest == [] && |found| <= limit)
    ensures found == FirstOf(all, limit)
  {
    assert found + [] == found;
  }

  method Search(v: Json, base: string, q: Query, limit: int, found: seq<Match>) returns (matches: seq<Match>)
    requires |found| <= Max(0, limit)
    ensures matches == FirstOf(found + Visit(v, base, q), limit)
    decreases v
  {
    hide VisitFrom, JoinPointer, Allowed, FirstOf, Awaits, TokenAt;
    ghost var all := found + Visit(v, base, q);
    Begins(all, found, Visit(v, base, q), limit);
    matches := found;
    if |matches| >= limit {
      Full(all, matches, Visit(v, base, q), limit);
      return;
    }
    if !Allowed(base, q) {
      Full(all, matches, [], limit);
      return;
    }
    match v
    case Object(members) =>
      for i := 0 to |members|
        invariant |matches| < limit && Awaits(all, matches, VisitFrom(v, i, base, q), limit)
      {
        var childPtr := JoinPointer(base, members[i].key);
        VisitFromStep(v, i, base, q);
        ghost var inside, rest := Visit(members[i].value, childPtr, q), VisitFrom(v, i + 1, base, q);
        assert TokenAt(v, i) == members[i].key by { KeyIsToken(v, i); }
        assert KeyMatch(v, i, base, q) + inside + rest == KeyMatch(v, i, base, q) + (inside + rest);
        TakeSome(all, matches, KeyMatch(v, i, base, q), inside + rest, limit);
        FitsStill(matches, KeyMatch(v, i, base, q), limit);
        if q.keyHit(members[i].key, members[i].value) {
          matches := matches + [Match(childPtr, true, members[i].value)];
        } else {
          assert matches + [] == matches;
        }
        if |matches| >= limit {
          Full(all, matches, inside + rest, limit);
          return;
        }
        TakeSome(all, matches, inside, rest, limit);
        matches := Search(members[i].value, childPtr, q, limit, matches);
        if |matches| >= limit {
          Full(all, matches, rest, limit);
          return;
        }
      }
      VisitFromStep(v, |members|, base, q);
      Full(all, matches, [], limit);
    case Array(items) =>
      for i := 0 to |items|
        invariant |matches| < limit && Awaits(all, matches, VisitFrom(v, i, base, q), limit)
      {
        VisitFromStep(v, i, base, q);
        assert TokenAt(v, i) == Itoa(i) by { KeyIsToken(v, i); }
        ghost var inside, rest := Visit(items[i], JoinPointer(base, Itoa(i)), q), VisitFrom(v, i + 1, base, q);
        assert [] + inside + rest == inside + rest;
        TakeSome(all, matches, inside, rest, limit);
        matches := Search(items[i], JoinPointer(base, Itoa(i)), q, limit, matches);
        if |matches| >= limit {
          Full(all, matches, rest, limit);
          return;
        }
      }
      VisitFromStep(v, |items|, base, q);
      Full(all, matches, [], limit);
    case Scalar(_, _) =>
      if q.valueHit(v) {
        matches := matches + [Match(base, false, v)];
        FitsStill(found, [Match(base, false, v)], limit);
      } else {
        Full(all, matches, [], limit);
      }
  }

  lemma KeyIsToken(v: Json, i: nat)
    requires i < Size(v)
    ensures TokenAt(v, i) == if v.Object? then v.members[i].key else Itoa(i)
  {
  }

  lemma Begins(all: seq<Match>, found: seq<Match>, rest: seq<Match>, limit: int)
    requires all == found + rest
    ensures Awaits(all, found, rest, limit)
  {
  }

  lemma VisitFromStep(v: Json, i: nat, base: string, q: Query)
    requires i <= Size(v)
    ensures i == Size(v) ==> VisitFrom(v, i, base, q) == []
    ensures i < Size(v) ==>
              VisitFrom(v, i, base, q)
              == KeyMatch(v, i, base, q) + Visit(ValueAt(v, i), JoinPointer(base, TokenAt(v, i)), q)
                 + VisitFrom(v, i + 1, base, q)
  {
  }

  lemma FitsStill(found: seq<Match>, some: seq<Match>, limit: int)
    requires |found| < limit && |some| <= 1
    ensures FirstOf(found + some, limit) == found + some
  {
  }

  /** The first `limit` matches of the whole walk. The flag is set when there are at least as
      many; so it says whether something is missing except exactly when the last match just fits. */
  method JsonSearch(root: Json, q: Query, limit: int) returns (matches: seq<Match>, truncated: bool)
    ensures matches == FirstOf(Visit(root, "", q), limit)
    ensures truncated <==> |Visit(root, "", q)| >= limit
    ensures (truncated <==> matches != Visit(root, "", q)) <==> |Visit(root, "", q)| != Max(0, limit)
  {
    matches := Search(root, "", q, limit, []);
    assert [] + Visit(root, "", q) == Visit(root, "", q);
    truncated := |matches| >= limit;
    ghost var all := Visit(root, "", q);
    if |all| <= Max(0, limit) {
      assert FirstOf(all, limit) == all;
    }
  }

  /** The value a path of child positions leads to. */
  function NodeAt(v: Json, path: seq<nat>): Option<Json> {
    if path == [] then Some(v)
    else if path[0] >= Size(v) then None
    else NodeAt(ValueAt(v, path[0]), path[1..])
  }

  /** Its pointer, when `v` has pointer `base`. */
  function PointerAt(v: Json, base: string, path: seq<nat>): string {
    if path == [] || path[0] >= Size(v) then base
    else PointerAt(ValueAt(v, path[0]), JoinPointer(base, TokenAt(v, path[0])), path[1..])
  }

  lemma {:induction false} PathResolves(root: Json, v: Json, base: string, path: seq<nat>)
    requires Resolve(root, base) == Ok(v) && WellFormed(v) && NodeAt(v, path).Some?
    ensures Resolve(root, PointerAt(v, base, path)) == Ok(NodeAt(v, path).value)
    ensures WellFormed(NodeAt(v, path).value)
    decreases |path|
  {
    hide Resolve, WellFormed, JoinPointer, TokenAt;
    if path != [] {
      ChildPointerResolves(root, base, v, path[0]);
      PathResolves(root, ValueAt(v, path[0]), JoinPointer(base, TokenAt(v, path[0])), path[1..]);
    }
  }

  /** `m` is what the walk reports of the node `v` itself, at pointer `base`. */
  ghost predicate HitAt(v: Json, base: string, m: Match, q: Query) {
    && (q.prefix <= base || base <= q.prefix)
    && (|| (v.Scalar? && q.valueHit(v) && m == Match(base, false, v))
        || (exists i :: 0 <= i < Size(v) && m in KeyMatch(v, i, base, q)))
  }

  ghost predicate HitBelow(v: Json, base: string, path: seq<nat>, m: Match, q: Query) {
    NodeAt(v, path).Some? && HitAt(NodeAt(v, path).value, PointerAt(v, base, path), m, q)
  }

  lemma {:induction false} PointersGrow(v: Json, base: string, path: seq<nat>)
    ensures base <= PointerAt(v, base, path)
    decreases |path|
  {
    hide Escape;
    if path != [] && path[0] < Size(v) {
      PointersGrow(ValueAt(v, path[0]), JoinPointer(base, TokenAt(v, path[0])), path[1..]);
    }
  }

  lemma AllowedAbove(base: string, pointer: string, q: Query)
    requires base <= pointer && Allowed(pointer, q)
    ensures Allowed(base, q)
  {
    if q.prefix <= pointer && |base| <= |q.prefix| {
      assert base == pointer[..|base|] == q.prefix[..|base|];
    }
  }

  /** The path to a reported match. */
  lemma {:induction false} MatchIsHit(v: Json, base: string, m: Match, q: Query) returns (path: seq<nat>)
    requires m in Visit(v, base, q)
    ensures HitBelow(v, base, path, m, q)
    decreases v, Size(v) + 1
  {
    AllowedIs(base, q);
    hide Allowed, JoinPointer, TokenAt, VisitFrom;
    if v.Scalar? {
      path := [];
    } else {
      path := MatchFromIsHit(v, 0, base, m, q);
    }
  }

  lemma {:induction false} MatchFromIsHit(v: Json, i: nat, base: string, m: Match, q: Query) returns (path: seq<nat>)
    requires Allowed(base, q) && i <= Size(v) && m in VisitFrom(v, i, base, q)
    ensures HitBelow(v, base, path, m, q)
    decreases v, Size(v) - i
  {
    hide Allowed, JoinPointer, TokenAt, VisitFrom, Visit, HitAt;
    VisitFromStep(v, i, base, q);
    if m in KeyMatch(v, i, base, q) {
      path := [];
      KeyIsHit(v, i, base, m, q);
    } else if m in Visit(ValueAt(v, i), JoinPointer(base, TokenAt(v, i)), q) {
      var below := MatchIsHit(ValueAt(v, i), JoinPointer(base, TokenAt(v, i)), m, q);
      path := [i] + below;
      assert path[1..] == below;
    } else {
      path := MatchFromIsHit(v, i + 1, base, m, q);
    }
  }

  lemma KeyIsHit(v: Json, i: nat, base: string, m: Match, q: Query)
    requires Allowed(base, q) && i < Size(v) && m in KeyMatch(v, i, base, q)
    ensures HitBelow(v, base, [], m, q)
  {
    AllowedIs(base, q);
  }

  lemma {:induction false} PartOfVisit(v: Json, i: nat, k: nat, base: string, m: Match, q: Query)
    requires i <= k < Size(v)
    requires m in KeyMatch(v, k, base, q) || m in Visit(ValueAt(v, k), JoinPointer(base, TokenAt(v, k)), q)
    ensures m in VisitFrom(v, i, base, q)
    decreases k - i
  {
    hide VisitFrom, Visit, KeyMatch, JoinPointer, TokenAt;
    VisitFromStep(v, i, base, q);
    if i < k {
      PartOfVisit(v, i + 1, k, base, m, q);
    }
  }

  lemma {:induction false} HitIsMatch(v: Json, base: string, path: seq<nat>, m: Match, q: Query)
    requires HitBelow(v, base, path, m, q)
    ensures m in Visit(v, base, q)
    decreases |path|
  {
    AllowedIs(base, q);
    AllowedIs(PointerAt(v, base, path), q);
    hide Allowed, JoinPointer, TokenAt, VisitFrom, KeyMatch;
    PointersGrow(v, base, path);
    AllowedAbove(base, PointerAt(v, base, path), q);
    if path == [] {
      if !v.Scalar? {
        var i :| 0 <= i < Size(v) && m in KeyMatch(v, i, base, q);
        PartOfVisit(v, 0, i, base, m, q);
      }
    } else {
      HitIsMatch(ValueAt(v, path[0]), JoinPointer(base, TokenAt(v, path[0])), path[1..], m, q);
      PartOfVisit(v, 0, path[0], base, m, q);
    }
  }

  /** The walk reports exactly the hits: the matching scalars at allowed pointers and the matching
      keys of objects at allowed pointers. */
  lemma SearchIsExact(root: Json, m: Match, q: Query)
    ensures m in Visit(root, "", q) <==> exists path: seq<nat> :: HitBelow(root, "", path, m, q)
  {
    if m in Visit(root, "", q) {
      var path := MatchIsHit(root, "", m, q);
    }
    if path: seq<nat> :| HitBelow(root, "", path, m, q) {
      HitIsMatch(root, "", path, m, q);
    }
  }

  /** Every reported pointer resolves to the very node it was reported for. */
  lemma SearchPointersResolve(root: Json, m: Match, q: Query)
    requires WellFormed(root) && m in Visit(root, "", q)
    ensures Resolve(root, m.pointer) == Ok(m.node)
  {
    hide Resolve, Visit, WellFormed, JoinPointer, TokenAt, Allowed;
    var path := MatchIsHit(root, "", m, q);
    RootResolves(root);
    PathResolves(root, root, "", path);
    var v, base := NodeAt(root, path).value, PointerAt(root, "", path);
    if m.onKey {
      var i :| 0 <= i < Size(v) && m in KeyMatch(v, i, base, q);
      ChildPointerResolves(root, base, v, i);
    }
  }

  lemma RootResolves(root: Json)
    ensures Resolve(root, "") == Ok(root)
  {
  }

  // ----------------------------------------------------- what a prefix keeps out

  /** A pointer lies within the prefix: as texts go, or, strictly, as pointers go. */
  predicate Within(pointer: string, q: Query, strictly: bool) {
    if strictly then pointer == q.prefix || q.prefix + "/" <= pointer else q.prefix <= pointer
  }

  /** The node `v` at pointer `p`, which the walk visits though it is not within the prefix,
      reports nothing outside: it is no matching scalar, and its matching keys lead inside. */
  ghost predicate Discreet(v: Json, p: string, q: Query, strictly: bool) {
    (q.prefix <= p || p <= q.prefix) && !Within(p, q, strictly) ==>
      && (v.Scalar? ==> !q.valueHit(v))
      && (v.Object? ==> forall i :: 0 <= i < Size(v) && q.keyHit(TokenAt(v, i), ValueAt(v, i)) ==>
                          Within(JoinPointer(p, TokenAt(v, i)), q, strictly))
  }

  ghost predicate DiscreetAt(root: Json, path: seq<nat>, q: Query, strictly: bool) {
    NodeAt(root, path).Some? ==> Discreet(NodeAt(root, path).value, PointerAt(root, "", path), q, strictly)
  }

  lemma WithinGrows(p: string, token: string, q: Query, strictly: bool)
    requires Within(p, q, strictly)
    ensures Within(JoinPointer(p, token), q, strictly)
  {
    hide Escape;
  }

  /** Whatever a node within the prefix, or a discreet one, reports lies within the prefix. */
  lemma HitIsWithin(v: Json, p: string, m: Match, q: Query, strictly: bool)
    requires HitAt(v, p, m, q) && Discreet(v, p, q, strictly)
    ensures Within(m.pointer, q, strictly)
  {
    hide Within, JoinPointer, TokenAt, Allowed;
    if i :| 0 <= i < Size(v) && m in KeyMatch(v, i, p, q) {
      if Within(p, q, strictly) {
        WithinGrows(p, TokenAt(v, i), q, strictly);
      }
    }
  }

  lemma IndiscreetHits(v: Json, p: string, q: Query, strictly: bool) returns (m: Match)
    requires !Discreet(v, p, q, strictly)
    ensures HitAt(v, p, m, q) && !Within(m.pointer, q, strictly)
  {
    hide Within, JoinPointer, TokenAt, Allowed;
    if v.Scalar? && q.valueHit(v) {
      m := Match(p, false, v);
    } else {
      var i :| 0 <= i < Size(v) && q.keyHit(TokenAt(v, i), ValueAt(v, i))
               && !Within(JoinPointer(p, TokenAt(v, i)), q, strictly);
      m := Match(JoinPointer(p, TokenAt(v, i)), true, ValueAt(v, i));
      assert m in KeyMatch(v, i, p, q);
    }
  }

  /** A search reports nothing outside its prefix, as texts or strictly as pointers, if and only if
      every node it visits outside the prefix is discreet: those above the prefix, and strictly
      also those whose name goes on where the prefix ends. */
  lemma PrefixIsRespectedExactly(root: Json, q: Query, strictly: bool)
    ensures (forall m :: m in Visit(root, "", q) ==> Within(m.pointer, q, strictly))
            <==> forall path: seq<nat> :: DiscreetAt(root, path, q, strictly)
  {
    hide Visit, Within, Discreet, HitAt;
    if forall path: seq<nat> :: DiscreetAt(root, path, q, strictly) {
      forall m | m in Visit(root, "", q) ensures Within(m.pointer, q, strictly) {
        var path := MatchIsHit(root, "", m, q);
        assert DiscreetAt(root, path, q, strictly);
        HitIsWithin(NodeAt(root, path).value, PointerAt(root, "", path), m, q, strictly);
      }
    } else {
      var path: seq<nat> :| !DiscreetAt(root, path, q, strictly);
      var m := IndiscreetHits(NodeAt(root, path).value, PointerAt(root, "", path), q, strictly);
      HitIsMatch(root, "", path, m, q);
    }
  }

  /** A search below `/a` reports the key `/b` beside it. */
  lemma PrefixLetsSiblingsThrough()
    ensures var one := Scalar("number", "1");
            var q := Query((k, v) => true, v => false, "/a");
            && Match("/b", true, one) in Visit(Object([Member("a", one), Member("b", one)]), "", q)
            && !Within("/b", q, false) && !Within("/b", q, true)
  {
    var one := Scalar("number", "1");
    var q := Query((k, v) => true, v => false, "/a");
    var root := Object([Member("a", one), Member("b", one)]);
    PlainPointer("b");
    assert "/" + "b" == "/b";
    assert Match("/b", true, one) in KeyMatch(root, 1, "", q);
    KeyIsHit(root, 1, "", Match("/b", true, one), q);
    HitIsMatch(root, "", [], Match("/b", true, one), q);
    assert "/a"[1] != "/b"[1];
  }

  /** And it reports the value at `/ab`, which is not below it as a pointer. */
  lemma PrefixLetsLongerNamesThrough()
    ensures var one := Scalar("number", "1");
            var q := Query((k, v) => false, v => true, "/a");
            && Match("/ab", false, one) in Visit(Object([Member("ab", one)]), "", q)
            && Within("/ab", q, false) && !Within("/ab", q, true)
  {
    var one := Scalar("number", "1");
    var q := Query((k, v) => false, v => true, "/a");
    var root := Object([Member("ab", one)]);
    PlainPointer("ab");
    assert NodeAt(root, [0]) == Some(one) && PointerAt(root, "", [0]) == "/ab" by {
      assert [0][1..] == [];
    }
    assert HitAt(one, "/ab", Match("/ab", false, one), q);
    HitIsMatch(root, "", [0], Match("/ab", false, one), q);
    assert ("/a" + "/")[2] != "/ab"[2];
  }

  lemma {:induction false} PlainPointer(key: string)
    requires '~' !in key && '/' !in key
    ensures Escape(key) == key && JoinPointer("", key) == "/" + key
    decreases |key|
  {
    hide Escape;
    if key == "" {
      NothingEscaped();
    } else {
      EscapeStep(key);
      PlainPointer(key[1..]);
      assert key == [key[0]] + key[1..];
    }
    assert "" + "/" + key == "/" + key;
  }
}
