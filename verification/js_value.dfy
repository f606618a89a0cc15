/**
 * JavaScript values as the Angular client sees them after the HTTP response
 * has been decoded, with the two JavaScript operations the line-item fill
 * depends on: truthiness and `toString().trim()`.
 */
module JsValue {

  /** A JavaScript number. Only zero and NaN matter to truthiness; the
      finite value is kept as a mathematical real so that equal numbers
      compare equal. (+0 and -0 are both `Finite(0.0)`.) */
  datatype JsNumber = NaN | Infinity(negative: bool) | Finite(value: real)

  /** A JavaScript value. `Undefined` is what reading a missing property
      yields; objects are property maps. */
  datatype Value =
    | Undefined
    | Null
    | Bool(b: bool)
    | Num(n: JsNumber)
    | Str(s: string)
    | Arr(elems: seq<Value>)
    | Obj(props: map<string, Value>)

  /** The characters `String.prototype.trim` removes: the WhiteSpace and
      LineTerminator productions of ECMAScript (section 12.2 and 12.3 of
      ECMA-262), i.e. TAB, VT, FF, SP, NBSP, ZWNBSP (BOM), the Unicode
      space separators, LF, CR, LS and PS. */
  predicate IsWhiteSpace(c: char) {
    var n := c as int;
    || n == 0x09 || n == 0x0A || n == 0x0B || n == 0x0C || n == 0x0D
    || n == 0x20 || n == 0xA0 || n == 0x1680
    || (0x2000 <= n <= 0x200A)
    || n == 0x2028 || n == 0x2029 || n == 0x202F || n == 0x205F
    || n == 0x3000 || n == 0xFEFF
  }

  predicate AllWhiteSpace(s: string) {
    forall i :: 0 <= i < |s| ==> IsWhiteSpace(s[i])
  }

  function TrimStart(s: string): (r: string)
    ensures |r| <= |s|
    decreases |s|
  {
    if |s| > 0 && IsWhiteSpace(s[0]) then TrimStart(s[1..]) else s
  }

  function TrimEnd(s: string): (r: string)
    ensures |r| <= |s|
    decreases |s|
  {
    if |s| > 0 && IsWhiteSpace(s[|s| - 1]) then TrimEnd(s[..|s| - 1]) else s
  }

  /** `String.prototype.trim`. */
  function Trim(s: string): string {
    TrimEnd(TrimStart(s))
  }

  /** JavaScript truthiness: `undefined`, `null`, `false`, `0`, `-0`,
      `NaN` and `""` are falsy; every other value is truthy. */
  predicate Truthy(v: Value) {
    match v
    case Undefined => false
    case Null => false
    case Bool(b) => b
    case Num(n) => !(n.NaN? || n == Finite(0.0))
    case Str(s) => |s| > 0
    case Arr(_) => true
    case Obj(_) => true
  }

  /** `v.toString().trim() === ""`. Numbers, booleans and plain objects
      never print as an empty string ("0", "NaN", "true", "[object Object]").
      An array prints as its elements joined by ","; `null` and `undefined`
      elements print as "". With two or more elements a "," survives the
      trim, so only the empty array and a one-element array whose element
      prints blank are blank. */
  predicate PrintsBlank(v: Value) {
    match v
    case Undefined => false
    case Null => false
    case Bool(_) => false
    case Num(_) => false
    case Str(s) => Trim(s) == ""
    case Arr(elems) =>
      || |elems| == 0
      || (|elems| == 1 && (elems[0].Null? || elems[0].Undefined? || PrintsBlank(elems[0])))
    case Obj(_) => false
  }

  /** A value the line-item fill treats as missing: the negation of
      `v && v.toString().trim() !== ""`. */
  predicate IsBlank(v: Value) {
    !(Truthy(v) && !PrintsBlank(v))
  }

  lemma {:induction false} TrimStartEmptyIff(s: string)
    ensures TrimStart(s) == "" <==> AllWhiteSpace(s)
    decreases |s|
  {
    if |s| > 0 && IsWhiteSpace(s[0]) {
      TrimStartEmptyIff(s[1..]);
      assert AllWhiteSpace(s) <==> AllWhiteSpace(s[1..]) by {
        if AllWhiteSpace(s[1..]) {
          forall i | 0 <= i < |s| ensures IsWhiteSpace(s[i]) {
            if i > 0 { assert s[i] == s[1..][i - 1]; }
          }
        }
      }
    } else if |s| > 0 {
      assert !IsWhiteSpace(s[0]);
    }
  }

  lemma {:induction false} TrimEndKeepsNonEmpty(s: string)
    requires !AllWhiteSpace(s)
    ensures TrimEnd(s) != ""
    decreases |s|
  {
    if |s| > 0 && IsWhiteSpace(s[|s| - 1]) {
      var t := s[..|s| - 1];
      assert !AllWhiteSpace(t) by {
        var i :| 0 <= i < |s| && !IsWhiteSpace(s[i]);
        assert i < |s| - 1 && t[i] == s[i];
      }
      TrimEndKeepsNonEmpty(t);
    } else {
      assert |s| > 0;
    }
  }

  /** `s.trim() === ""` exactly when every character of `s` is white space
      (the empty string included). */
  lemma TrimEmptyIff(s: string)
    ensures Trim(s) == "" <==> AllWhiteSpace(s)
  {
    TrimStartEmptyIff(s);
    if !AllWhiteSpace(s) {
      var t := TrimStart(s);
      assert t != "";
      TrimStartSuffix(s);
      var k := |s| - |t|;
      assert t == s[k..];
      assert !AllWhiteSpace(t) by {
        assert !IsWhiteSpace(t[0]) by { TrimStartStopsAtNonSpace(s); }
      }
      TrimEndKeepsNonEmpty(t);
    }
  }

  lemma {:induction false} TrimStartSuffix(s: string)
    ensures TrimStart(s) == s[|s| - |TrimStart(s)|..]
    decreases |s|
  {
    if |s| > 0 && IsWhiteSpace(s[0]) {
      TrimStartSuffix(s[1..]);
      assert s[1..][|s[1..]| - |TrimStart(s[1..])|..] == s[|s| - |TrimStart(s)|..];
    }
  }

  lemma {:induction false} TrimStartStopsAtNonSpace(s: string)
    ensures TrimStart(s) != "" ==> !IsWhiteSpace(TrimStart(s)[0])
    decreases |s|
  {
    if |s| > 0 && IsWhiteSpace(s[0]) {
      TrimStartStopsAtNonSpace(s[1..]);
    }
  }

  /** A string is blank exactly when it consists of white space only;
      the other scalars are blank exactly when they are falsy. */
  lemma BlankScalars(s: string, b: bool, n: JsNumber)
    ensures IsBlank(Str(s)) <==> AllWhiteSpace(s)
    ensures IsBlank(Bool(b)) <==> !b
    ensures IsBlank(Num(n)) <==> (n.NaN? || n == Finite(0.0))
    ensures IsBlank(Null) && IsBlank(Undefined)
  {
    TrimEmptyIff(s);
  }
}
