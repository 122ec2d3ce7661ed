/** The two display helpers of the utility object: formatting a land-title number (nomor hak)
    and picking a feature's colour from its attributes. */
module Utils {
  import opened Wrappers
  import opened Json
  import opened Text

  /** `parts.join(',')`, which yields the empty string for no parts. */
  function JoinComma(parts: seq<string>): string {
    if parts == [] then "" else if |parts| == 1 then parts[0] else parts[0] + "," + JoinComma(parts[1..])
  }

  /** `String(v)` for a decoded attribute value. Number rendering is the runtime's and is passed
      in; an array renders its elements joined by commas, with `null` elements as empty strings;
      an object renders as `[object Object]`. */
  function JsString(v: Json, numToStr: real -> string): string
    decreases v
  {
    match v
    case JNull => "null"
    case JBool(b) => if b then "true" else "false"
    case JNum(n) => numToStr(n)
    case JStr(s) => s
    case JObj(_) => "[object Object]"
    case JArr(items) =>
      JoinComma(seq(|items|, i requires 0 <= i < |items| =>
        if items[i].JNull? then "" else JsString(items[i], numToStr)))
  }

  /** The digits of `nomor` arranged as `dddddddd.d.ddddd`: eight digits, a dot, one digit, a dot
      and the rest of at most five digits. */
  function Dotted(d: string): string
    requires |d| >= 9
  {
    d[..8] + "." + d[8..9] + "." + d[9..if |d| >= 14 then 14 else |d|]
  }

  /** `formatNomorHak(nomor)`: `-` for a falsy or missing value; the value itself when fewer than
      nine digits remain after dropping every non-digit; otherwise the digits (at most fourteen)
      in the dotted layout, with the dots at positions 8 and 10 and digits everywhere else. */
  function FormatNomorHak(nomor: Option<Json>, numToStr: real -> string): (r: Json)
    ensures !Present(nomor) ==> r == JStr("-")
    ensures Present(nomor) && |Digits(JsString(nomor.value, numToStr))| < 9 ==> r == nomor.value
    ensures Present(nomor) && |Digits(JsString(nomor.value, numToStr))| >= 9 ==>
      var d := Digits(JsString(nomor.value, numToStr));
      var kept := if |d| >= 14 then 14 else |d|;
      r.JStr? && |r.s| == kept + 2
      && r.s[8] == '.' && r.s[10] == '.'
      && (forall i :: 0 <= i < |r.s| && i != 8 && i != 10 ==> IsDigit(r.s[i]))
      && Digits(r.s) == d[..kept]
  {
    if !Present(nomor) then JStr("-")
    else
      var d := Digits(JsString(nomor.value, numToStr));
      if |d| >= 9 then
        DottedDigits(d);
        JStr(Dotted(d))
      else nomor.value
  }

  /** The dotted layout keeps exactly the first fourteen digits. */
  lemma DottedDigits(d: string)
    requires |d| >= 9
    requires forall i :: 0 <= i < |d| ==> IsDigit(d[i])
    ensures var kept := if |d| >= 14 then 14 else |d|;
      |Dotted(d)| == kept + 2
      && Dotted(d)[8] == '.' && Dotted(d)[10] == '.'
      && (forall i :: 0 <= i < |Dotted(d)| && i != 8 && i != 10 ==> IsDigit(Dotted(d)[i]))
      && Digits(Dotted(d)) == d[..kept]
  {
    var kept := if |d| >= 14 then 14 else |d|;
    var a, b, c := d[..8], d[8..9], d[9..kept];
    var t := Dotted(d);
    assert t == a + ("." + (b + ("." + c)));
    forall i | 0 <= i < |t| && i != 8 && i != 10 ensures IsDigit(t[i]) {
      if i < 8 {
        assert t[i] == d[i];
      } else if i == 9 {
        assert t[i] == d[8];
      } else {
        assert t[i] == d[i - 2];
      }
    }
    DigitsOfDotted(a, b, c);
    assert a + (b + c) == d[..kept];
  }

  /** Dropping the two dots of `a.b.c` for digit strings gives back `a + b + c`. */
  lemma DigitsOfDotted(a: string, b: string, c: string)
    requires forall i :: 0 <= i < |a| ==> IsDigit(a[i])
    requires forall i :: 0 <= i < |b| ==> IsDigit(b[i])
    requires forall i :: 0 <= i < |c| ==> IsDigit(c[i])
    ensures Digits(a + ("." + (b + ("." + c)))) == a + (b + c)
  {
    var dot := ".";
    var s1 := dot + c;
    var s2 := b + s1;
    var s3 := dot + s2;
    assert Filter(dot, IsDigit) == [] by {
      assert dot[1..] == [];
    }
    FilterAllKept(a, IsDigit);
    FilterAllKept(b, IsDigit);
    FilterAllKept(c, IsDigit);
    FilterAppend(dot, c, IsDigit);
    assert Filter(s1, IsDigit) == c;
    FilterAppend(b, s1, IsDigit);
    assert Filter(s2, IsDigit) == b + c;
    FilterAppend(dot, s2, IsDigit);
    assert Filter(s3, IsDigit) == b + c;
    FilterAppend(a, s3, IsDigit);
    assert Filter(a + s3, IsDigit) == a + (b + c);
    assert a + s3 == a + ("." + (b + ("." + c)));
  }

  /** Formatting an already formatted number changes nothing. */
  lemma FormatIdempotent(nomor: Option<Json>, numToStr: real -> string)
    ensures var once := FormatNomorHak(nomor, numToStr);
      FormatNomorHak(Some(once), numToStr) == once
  {
    var once := FormatNomorHak(nomor, numToStr);
    if !Present(nomor) {
      assert Digits("-") == [] by {
        assert Filter("-", IsDigit) == [] + Filter("", IsDigit);
      }
    } else {
      var d := Digits(JsString(nomor.value, numToStr));
      if |d| >= 9 {
        var kept := if |d| >= 14 then 14 else |d|;
        var t := Dotted(d);
        assert once == JStr(t);
        assert JsString(once, numToStr) == t;
        assert Digits(t) == d[..kept];
        DottedStable(d);
      }
    }
  }

  /** Re-arranging the digits the dotted layout keeps gives the same layout. */
  lemma DottedStable(d: string)
    requires |d| >= 9
    ensures var kept := if |d| >= 14 then 14 else |d|;
      |d[..kept]| >= 9 && Dotted(d[..kept]) == Dotted(d)
  {
  }

  /** `props[keys[i]]` exists and is truthy. */
  predicate TruthyAt(props: map<string, Json>, keys: seq<string>, i: int)
    requires 0 <= i < |keys|
  {
    keys[i] in props && Truthy(props[keys[i]])
  }

  /** Key `i` is the first key whose value exists and is truthy. */
  predicate FirstTruthyAt(props: map<string, Json>, keys: seq<string>, i: int)
    requires 0 <= i < |keys|
  {
    TruthyAt(props, keys, i) && forall j :: 0 <= j < i ==> !TruthyAt(props, keys, j)
  }

  /** The first truthy value of `keys` in `props`, or `null`: the reference reading of a chain
      `props.k1 || props.k2 || ... || null`. A truthy result is the value of some key every
      earlier key of which is missing or falsy; `null` means no key holds a truthy value. */
  function FirstTruthy(props: map<string, Json>, keys: seq<string>): (r: Json)
    ensures r == JNull || Truthy(r)
    ensures Truthy(r) <==> exists i :: 0 <= i < |keys| && TruthyAt(props, keys, i)
    ensures Truthy(r) ==> exists i :: 0 <= i < |keys| && FirstTruthyAt(props, keys, i) && r == props[keys[i]]
    decreases |keys|
  {
    if keys == [] then JNull
    else if TruthyAt(props, keys, 0) then props[keys[0]]
    else
      var rest := keys[1..];
      var r := FirstTruthy(props, rest);
      assert forall k :: 0 <= k < |rest| ==> TruthyAt(props, rest, k) == TruthyAt(props, keys, k + 1);
      assert Truthy(r) ==> exists i :: 0 <= i < |keys| && FirstTruthyAt(props, keys, i) && r == props[keys[i]] by {
        if Truthy(r) {
          var k :| 0 <= k < |rest| && FirstTruthyAt(props, rest, k) && r == props[rest[k]];
          assert rest[k] == keys[k + 1];
          forall j | 0 <= j < k + 1 ensures !TruthyAt(props, keys, j) {
            if j > 0 {
              assert !TruthyAt(props, rest, j - 1);
            }
          }
          assert FirstTruthyAt(props, keys, k + 1);
        }
      }
      assert (exists i :: 0 <= i < |keys| && TruthyAt(props, keys, i)) ==> Truthy(r) by {
        if exists i :: 0 <= i < |keys| && TruthyAt(props, keys, i) {
          var i :| 0 <= i < |keys| && TruthyAt(props, keys, i);
          assert i != 0;
          assert TruthyAt(props, rest, i - 1);
        }
      }
      r
  }

  /** The attribute keys a colour is read from, in priority order. */
  const ColorKeys: seq<string> := ["warna", "color", "COLOR"]

  /** `getColor(properties)`: `warna`, else `color`, else `COLOR`, whichever is first truthy,
      else `null`. */
  function GetColor(props: map<string, Json>): (r: Json)
    ensures r == FirstTruthy(props, ColorKeys)
    ensures "warna" in props && Truthy(props["warna"]) ==> r == props["warna"]
  {
    var chain := Or(Or(Get(JObj(props), "warna"), Get(JObj(props), "color")), Get(JObj(props), "COLOR"));
    var r := if Present(chain) then chain.value else JNull;
    var k1, k2 := ColorKeys[1..], ColorKeys[2..];
    assert k1 == ["color", "COLOR"] && k1[1..] == k2 && k2 == ["COLOR"] && k2[1..] == [];
    assert FirstTruthy(props, k2[1..]) == JNull;
    assert FirstTruthy(props, k2) == if "COLOR" in props && Truthy(props["COLOR"]) then props["COLOR"] else JNull;
    assert FirstTruthy(props, k1) ==
      if "color" in props && Truthy(props["color"]) then props["color"] else FirstTruthy(props, k2);
    assert FirstTruthy(props, ColorKeys) ==
      if "warna" in props && Truthy(props["warna"]) then props["warna"] else FirstTruthy(props, k1);
    r
  }
}
