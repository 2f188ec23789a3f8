/** Allowlist compilation and matching for both lanes. */
module Allowlist {
  import opened Options

  /** `None` is the wildcard. */
  datatype ExtRule = ExtRule(svc: string, msgType: Option<string>)

  datatype HotRule = HotRule(svcId: nat, opcode: Option<nat>)

  datatype Result<T> = Ok(value: T) | Err(entry: string)

  // ---- splitting and parsing ----

  /** Both sides of the first `:`. */
  function SplitOnce(s: string): Option<(string, string)> {
    if s == "" then None
    else if s[0] == ':' then Some(("", s[1..]))
    else match SplitOnce(s[1..])
      case None => None
      case Some((l, r)) => Some(([s[0]] + l, r))
  }

  lemma {:induction false} SplitOnceIff(s: string, l: string, r: string)
    ensures SplitOnce(s) == Some((l, r)) <==> ':' !in l && s == l + ":" + r
    ensures SplitOnce(s) == None <==> ':' !in s
  {
    if s == "" {
    } else if s[0] == ':' {
      assert l + ":" + r == s && l != "" ==> l[0] == ':';
      if l == "" { assert l + ":" + r == [':'] + r; assert s == [':'] + s[1..]; }
    } else {
      if l == "" {
        SplitOnceIff(s[1..], "", r);
        assert (l + ":" + r)[0] == ':';
      } else {
        SplitOnceIff(s[1..], l[1..], r);
        assert l == [l[0]] + l[1..];
        assert l + ":" + r == [l[0]] + (l[1..] + ":" + r);
        assert s == [s[0]] + s[1..];
      }
      assert s == [s[0]] + s[1..];
    }
  }

  predicate IsDigit(c: char) {
    '0' <= c <= '9'
  }

  function DigitsValue(s: string): nat
    requires forall c :: c in s ==> IsDigit(c)
  {
    if s == "" then 0
    else
      var last := s[|s| - 1];
      assert IsDigit(last);
      DigitsValue(s[..|s| - 1]) * 10 + (last as nat - '0' as nat)
  }

  /** `str::parse::<u8>`: an optional `+`, at least one digit, a value up to 255. */
  function ParseU8(s: string): Option<nat> {
    var digits := if s != "" && s[0] == '+' then s[1..] else s;
    if digits != "" && (forall c :: c in digits ==> IsDigit(c)) && DigitsValue(digits) <= 255
    then Some(DigitsValue(digits)) else None
  }

  function Digit(d: nat): (c: char)
    requires d < 10
    ensures IsDigit(c)
  {
    '0' + d as char
  }

  /** A number in decimal, without leading zeros. */
  function Decimal(n: nat): (s: string)
    ensures s != "" && forall c :: c in s ==> IsDigit(c)
  {
    if n < 10 then [Digit(n)] else Decimal(n / 10) + [Digit(n % 10)]
  }

  function Zeros(z: nat): string {
    seq(z, _ => '0')
  }

  lemma {:induction false} DecimalValue(z: nat, n: nat)
    ensures forall c :: c in Zeros(z) + Decimal(n) ==> IsDigit(c)
    ensures DigitsValue(Zeros(z) + Decimal(n)) == n
  {
    var s := Zeros(z) + Decimal(n);
    assert s[|s| - 1] == Decimal(n)[|Decimal(n)| - 1];
    if n >= 10 {
      DecimalValue(z, n / 10);
      assert s[..|s| - 1] == Zeros(z) + Decimal(n / 10);
    } else {
      assert s[..|s| - 1] == Zeros(z);
      ZerosValue(z);
    }
  }

  lemma {:induction false} ZerosValue(z: nat)
    ensures DigitsValue(Zeros(z)) == 0
  {
    if z > 0 {
      ZerosValue(z - 1);
      assert Zeros(z)[..z - 1] == Zeros(z - 1);
    }
  }

  /** Every string of digits is a decimal number behind some zeros. */
  lemma {:induction false} DigitsAreDecimal(s: string) returns (z: nat)
    requires s != "" && forall c :: c in s ==> IsDigit(c)
    ensures s == Zeros(z) + Decimal(DigitsValue(s))
  {
    var init, last := s[..|s| - 1], s[|s| - 1];
    assert IsDigit(last) && s == init + [last];
    var d := last as nat - '0' as nat;
    assert Digit(d) == last;
    if init == "" {
      z := 0;
    } else {
      var y := DigitsAreDecimal(init);
      var v := DigitsValue(init);
      if v == 0 {
        z := y + 1;
        assert init == Zeros(y) + [Digit(0)] == Zeros(z);
      } else {
        z := y;
        assert Decimal(10 * v + d) == Decimal(v) + [Digit(d)];
      }
    }
  }

  /** Parsing reads decimal: exactly the numerals of 0 to 255, leading zeros and one `+` aside. */
  lemma ParseU8Iff(s: string, n: nat)
    ensures ParseU8(s) == Some(n)
       <==> n <= 255 && exists z :: s == Zeros(z) + Decimal(n) || s == "+" + Zeros(z) + Decimal(n)
  {
    hide ParseU8, Zeros, Decimal;
    if ParseU8(s) == Some(n) { var _ := ParsedIsDecimal(s, n); }
    if z :| s == Zeros(z) + Decimal(n) || s == "+" + Zeros(z) + Decimal(n) {
      if n <= 255 { DecimalParses(s, z, n); }
    }
  }

  lemma ParsedIsDecimal(s: string, n: nat) returns (z: nat)
    requires ParseU8(s) == Some(n)
    ensures n <= 255 && (s == Zeros(z) + Decimal(n) || s == "+" + Zeros(z) + Decimal(n))
  {
    hide DigitsValue, Decimal, Zeros;
    var digits := if s[0] == '+' then s[1..] else s;
    z := DigitsAreDecimal(digits);
    assert s == digits || s == "+" + digits;
    assert "+" + (Zeros(z) + Decimal(n)) == "+" + Zeros(z) + Decimal(n);
  }

  lemma DecimalParses(s: string, z: nat, n: nat)
    requires n <= 255 && (s == Zeros(z) + Decimal(n) || s == "+" + Zeros(z) + Decimal(n))
    ensures ParseU8(s) == Some(n)
  {
    hide DigitsValue, Decimal, Zeros;
    var digits := Zeros(z) + Decimal(n);
    DecimalValue(z, n);
    if s == digits {
      assert s[0] in s;
    } else {
      assert s[1..] == digits;
    }
  }

  // ---- one entry ----

  function ExtEntry(s: string): Option<ExtRule> {
    match SplitOnce(s)
    case None => None
    case Some((svc, ty)) => Some(ExtRule(svc, if ty == "*" then None else Some(ty)))
  }

  function HotEntry(s: string): Option<HotRule> {
    match SplitOnce(s)
    case None => None
    case Some((id, op)) =>
      if ParseU8(id) == None then None
      else if op == "*" then Some(HotRule(ParseU8(id).value, None))
      else if ParseU8(op) == None then None
      else Some(HotRule(ParseU8(id).value, ParseU8(op)))
  }

  // ---- compilation ----

  /** Fails with the first entry that has no `:`. */
  method CompileExt(raw: seq<string>) returns (rules: Result<seq<ExtRule>>)
    ensures rules.Ok? <==> forall s :: s in raw ==> ':' in s
    ensures rules.Ok? ==>
              |rules.value| == |raw| && forall i :: 0 <= i < |raw| ==> ExtEntry(raw[i]) == Some(rules.value[i])
    ensures rules.Err? ==>
              exists i :: 0 <= i < |raw| && raw[i] == rules.entry && ':' !in raw[i]
                && forall j :: 0 <= j < i ==> ':' in raw[j]
  {
    var out := [];
    for i := 0 to |raw|
      invariant |out| == i
      invariant forall j :: 0 <= j < i ==> ExtEntry(raw[j]) == Some(out[j]) && ':' in raw[j]
    {
      SplitOnceIff(raw[i], "", "");
      match SplitOnce(raw[i]) {
        case None => return Err(raw[i]);
        case Some((svc, ty)) =>
          out := out + [ExtRule(svc, if ty == "*" then None else Some(ty))];
      }
    }
    return Ok(out);
  }

  /** Fails with the first entry that is not `u8:u8` or `u8:*`. */
  method CompileHot(raw: seq<string>) returns (rules: Result<seq<HotRule>>)
    ensures rules.Ok? <==> forall i :: 0 <= i < |raw| ==> HotEntry(raw[i]).Some?
    ensures rules.Ok? ==>
              |rules.value| == |raw| && forall i :: 0 <= i < |raw| ==> HotEntry(raw[i]) == Some(rules.value[i])
    ensures rules.Err? ==>
              exists i :: 0 <= i < |raw| && raw[i] == rules.entry && HotEntry(raw[i]).None?
                && forall j :: 0 <= j < i ==> HotEntry(raw[j]).Some?
  {
    var out := [];
    for i := 0 to |raw|
      invariant |out| == i
      invariant forall j :: 0 <= j < i ==> HotEntry(raw[j]) == Some(out[j])
    {
      var parts := SplitOnce(raw[i]);
      if parts.None? { return Err(raw[i]); }
      var (idText, opText) := parts.value;
      var id := ParseU8(idText);
      if id.None? { return Err(raw[i]); }
      var opcode: Option<nat> := None;
      if opText != "*" {
        opcode := ParseU8(opText);
        if opcode.None? { return Err(raw[i]); }
      }
      out := out + [HotRule(id.value, opcode)];
    }
    return Ok(out);
  }

  // ---- matching ----

  predicate IsExtAllowed(rules: seq<ExtRule>, svc: string, msgType: string) {
    exists r | r in rules :: r.svc == svc && (r.msgType == None || r.msgType == Some(msgType))
  }

  predicate IsHotAllowed(rules: seq<HotRule>, svcId: nat, opcode: nat) {
    exists r | r in rules :: r.svcId == svcId && (r.opcode == None || r.opcode == Some(opcode))
  }

  /** Compiled rules allow a message exactly when its service has no `:` and the raw list
      literally holds `svc:*` or `svc:type`. */
  lemma ExtMeaning(raw: seq<string>, rules: seq<ExtRule>, svc: string, msgType: string)
    requires |rules| == |raw| && forall i :: 0 <= i < |raw| ==> ExtEntry(raw[i]) == Some(rules[i])
    ensures IsExtAllowed(rules, svc, msgType)
       <==> ':' !in svc && (svc + ":" + "*" in raw || svc + ":" + msgType in raw)
  {
    hide SplitOnce;
    forall i | 0 <= i < |raw|
      ensures rules[i].svc == svc && (rules[i].msgType == None || rules[i].msgType == Some(msgType))
         <==> ':' !in svc && (raw[i] == svc + ":" + "*" || raw[i] == svc + ":" + msgType)
    {
      SplitOnceIff(raw[i], svc, "*");
      SplitOnceIff(raw[i], svc, msgType);
      assert SplitOnce(raw[i]).Some?;
    }
  }

  /** The line is `id:op` with the service id, and `*` or the opcode, in decimal. */
  ghost predicate HotGrants(line: string, svcId: nat, opcode: nat) {
    exists id, op :: HotLine(line, id, op) && ParseU8(id) == Some(svcId) && (op == "*" || ParseU8(op) == Some(opcode))
  }

  predicate HotLine(line: string, id: string, op: string) {
    ':' !in id && line == id + ":" + op
  }

  lemma HotEntryGrants(line: string, rule: HotRule, svcId: nat, opcode: nat)
    requires HotEntry(line) == Some(rule)
    ensures rule.svcId == svcId && (rule.opcode == None || rule.opcode == Some(opcode))
       <==> HotGrants(line, svcId, opcode)
  {
    hide SplitOnce, ParseU8;
    var (l, r) := SplitOnce(line).value;
    SplitOnceIff(line, l, r);
    assert HotLine(line, l, r);
    forall id, op | HotLine(line, id, op) ensures id == l && op == r {
      SplitOnceIff(line, id, op);
    }
  }

  /** Compiled hot rules allow a frame exactly when some raw line grants it. */
  lemma HotMeaning(raw: seq<string>, rules: seq<HotRule>, svcId: nat, opcode: nat)
    requires |rules| == |raw| && forall i :: 0 <= i < |raw| ==> HotEntry(raw[i]) == Some(rules[i])
    ensures IsHotAllowed(rules, svcId, opcode) <==> exists line :: line in raw && HotGrants(line, svcId, opcode)
  {
    hide HotEntry, HotGrants;
    forall i | 0 <= i < |raw|
      ensures rules[i].svcId == svcId && (rules[i].opcode == None || rules[i].opcode == Some(opcode))
         <==> HotGrants(raw[i], svcId, opcode)
    {
      HotEntryGrants(raw[i], rules[i], svcId, opcode);
    }
  }
}
