/**
 * Decoded JSON as PHP sees it after `json_decode($text, TRUE)`: objects become
 * ordered arrays keyed by strings. Covers PHP's `empty()` and `isset()` on such
 * values, key assignment on an ordered array, and the text `json_encode` produces.
 */
module Json {
  import opened Wrappers
  import opened Text

  datatype Json =
    | JNull
    | JBool(b: bool)
    | JInt(i: int)
    | JStr(s: string)
    | JArr(items: seq<Json>)
    | JObj(members: seq<Member>)

  /** One key of an object, in the order PHP keeps it. */
  datatype Member = Member(key: string, value: Json)

  /** PHP `empty()` on a decoded value. */
  predicate Empty(j: Json) {
    match j
    case JNull => true
    case JBool(b) => !b
    case JInt(i) => i == 0
    case JStr(s) => PhpEmpty(s)
    case JArr(items) => items == []
    case JObj(ms) => ms == []
  }

  function Keys(ms: seq<Member>): seq<string> {
    if ms == [] then [] else [ms[0].key] + Keys(ms[1..])
  }

  /** `$a[$k] ?? null`: the value stored under `k`, if any. */
  function Get(ms: seq<Member>, k: string): (r: Option<Json>)
    ensures r.Some? <==> k in Keys(ms)
  {
    if ms == [] then None
    else if ms[0].key == k then Some(ms[0].value)
    else Get(ms[1..], k)
  }

  /** A key found by `Get` sits at some position of the array. */
  lemma {:induction false} GetAt(ms: seq<Member>, k: string) returns (i: nat)
    requires Get(ms, k).Some?
    ensures i < |ms| && ms[i].key == k && ms[i].value == Get(ms, k).value
  {
    if ms[0].key == k {
      i := 0;
    } else {
      var i' := GetAt(ms[1..], k);
      i := i' + 1;
    }
  }

  /** PHP `isset($a[$k])`: the key is present with a non-null value. */
  predicate IsSet(ms: seq<Member>, k: string) {
    Get(ms, k).Some? && Get(ms, k).value != JNull
  }

  /** PHP `empty($a[$k])`: the key is missing or its value is empty. */
  predicate EmptyAt(ms: seq<Member>, k: string) {
    Get(ms, k).None? || Empty(Get(ms, k).value)
  }

  /**
   * `$a[$k] = $v`: an existing key keeps its position and takes the new value;
   * a new key goes at the end.
   */
  function Put(ms: seq<Member>, k: string, v: Json): (r: seq<Member>)
    ensures Get(r, k) == Some(v)
    ensures forall k' :: k' != k ==> Get(r, k') == Get(ms, k')
    ensures Keys(r) == if k in Keys(ms) then Keys(ms) else Keys(ms) + [k]
  {
    if ms == [] then [Member(k, v)]
    else if ms[0].key == k then [Member(k, v)] + ms[1..]
    else
      var rest := Put(ms[1..], k, v);
      assert ([ms[0]] + rest)[1..] == rest;
      [ms[0]] + rest
  }

  /** Assigning a key the array does not have appends one member. */
  lemma {:induction false} PutNew(ms: seq<Member>, k: string, v: Json)
    requires Get(ms, k).None?
    ensures Put(ms, k, v) == ms + [Member(k, v)]
  {
    if ms != [] {
      PutNew(ms[1..], k, v);
      assert ms == [ms[0]] + ms[1..];
    }
  }

  /** The characters `json_encode` writes with a backslash escape: the quote, the backslash, the slash and the control characters. */
  predicate Escaped(c: char) {
    c < ' ' || c == '"' || c == '\\' || c == '/'
  }

  /** A lower-case hexadecimal digit, as `json_encode` writes in `\u00XX`. */
  function HexDigit(d: nat): (r: char)
    requires d < 16
    ensures '0' <= r <= 'f'
  {
    "0123456789abcdef"[d]
  }

  /** A control character: `\b`, `\t`, `\n`, `\f`, `\r` by name, the others as `\u00XX`. */
  function ControlEscape(n: nat): (r: string)
    requires n < 32
    ensures |r| >= 2 && r[0] == '\\'
    ensures forall i :: 0 <= i < |r| ==> r[i] >= ' '
  {
    if n == 8 then "\\b"
    else if n == 9 then "\\t"
    else if n == 10 then "\\n"
    else if n == 12 then "\\f"
    else if n == 13 then "\\r"
    else "\\u00" + [HexDigit(n / 16), HexDigit(n % 16)]
  }

  /** How `json_encode` writes one character of a string: escaped characters start with a backslash, the rest are kept. */
  function EscapeChar(c: char): (r: string)
    ensures !Escaped(c) <==> r == [c]
    ensures Escaped(c) ==> |r| >= 2 && r[0] == '\\'
  {
    if c == '"' then "\\\""
    else if c == '\\' then "\\\\"
    else if c == '/' then "\\/"
    else if c < ' ' then ControlEscape(c as nat)
    else [c]
  }

  function Escape(s: string): string {
    if s == [] then [] else EscapeChar(s[0]) + Escape(s[1..])
  }

  /** The escaped text of a string holds no raw control character: each one became a visible escape. */
  lemma {:induction false} EscapeHasNoControl(s: string)
    ensures forall i :: 0 <= i < |Escape(s)| ==> Escape(s)[i] >= ' '
  {
    if s != [] {
      EscapeHasNoControl(s[1..]);
      var e := EscapeChar(s[0]);
      assert forall i :: 0 <= i < |e| ==> e[i] >= ' ';
      assert Escape(s) == e + Escape(s[1..]);
    }
  }

  /** A text `json_encode` writes verbatim between the quotes. */
  predicate Plain(s: string) {
    forall i :: 0 <= i < |s| ==> !Escaped(s[i])
  }

  lemma {:induction false} EscapePlain(s: string)
    requires Plain(s)
    ensures Escape(s) == s
  {
    if s != [] {
      EscapePlain(s[1..]);
      assert s == [s[0]] + s[1..];
    }
  }

  function Quote(s: string): string {
    "\"" + Escape(s) + "\""
  }

  /**
   * The keys are "0", "1", … in order. `json_decode` turns such numeric-string
   * keys into integers, so PHP holds a list, and `json_encode` writes a list
   * (the empty array included).
   */
  predicate IsList(ms: seq<Member>) {
    forall k :: 0 <= k < |ms| ==> ms[k].key == NatToString(k)
  }

  /** The text `json_encode` produces for a value: a PHP list as `[…]`, any other array as `{…}`. */
  function Encode(j: Json): string
    decreases j
  {
    match j
    case JNull => "null"
    case JBool(b) => if b then "true" else "false"
    case JInt(i) => IntToString(i)
    case JStr(s) => Quote(s)
    case JArr(items) =>
      "[" + Join(seq(|items|, k requires 0 <= k < |items| => Encode(items[k])), ",") + "]"
    case JObj(ms) =>
      if IsList(ms) then "[" + Join(seq(|ms|, k requires 0 <= k < |ms| => Encode(ms[k].value)), ",") + "]"
      else "{" + Join(seq(|ms|, k requires 0 <= k < |ms| => Quote(ms[k].key) + ":" + Encode(ms[k].value)), ",") + "}"
  }

  /** An array with a key that is not its position is written as an object, each member as `"key":value`. */
  lemma EncodeObject(ms: seq<Member>, k: nat)
    requires k < |ms| && ms[k].key != NatToString(k)
    ensures var parts := seq(|ms|, i requires 0 <= i < |ms| => Quote(ms[i].key) + ":" + Encode(ms[i].value));
      Encode(JObj(ms)) == "{" + Join(parts, ",") + "}"
  {
  }

  /** An empty array is written `[]`. */
  lemma EncodeEmpty()
    ensures Encode(JObj([])) == "[]" && Encode(JArr([])) == "[]"
  {
  }

  /** `t` is one of the string values somewhere inside `j`. */
  predicate Mentions(j: Json, t: string)
    decreases j
  {
    match j
    case JStr(s) => s == t
    case JArr(items) => exists k :: 0 <= k < |items| && Mentions(items[k], t)
    case JObj(ms) => exists k :: 0 <= k < |ms| && Mentions(ms[k].value, t)
    case _ => false
  }

  /** Each joined part appears whole in the joined text. */
  lemma {:induction false} JoinHasPart(parts: seq<string>, sep: string, k: nat) returns (x: string, y: string)
    requires k < |parts|
    ensures Join(parts, sep) == x + parts[k] + y
  {
    if |parts| == 1 {
      x, y := [], [];
    } else if k == 0 {
      x, y := [], sep + Join(parts[1..], sep);
    } else {
      var x', y' := JoinHasPart(parts[1..], sep, k - 1);
      x, y := parts[0] + sep + x', y';
    }
  }

  /**
   * A string value that needs no escaping can be found, as written, in the
   * encoded text: placeholders put into a matrix survive `json_encode`.
   */
  lemma {:induction false} EncodeShowsMentioned(j: Json, t: string)
    requires Mentions(j, t) && Plain(t)
    ensures Contains(Encode(j), t)
    decreases j
  {
    match j
    case JStr(s) =>
      EscapePlain(s);
      assert OccursAt(Encode(j), t, 1);
    case JArr(items) =>
      var k :| 0 <= k < |items| && Mentions(items[k], t);
      EncodeShowsMentioned(items[k], t);
      var parts := seq(|items|, i requires 0 <= i < |items| => Encode(items[i]));
      var x, y := JoinHasPart(parts, ",", k);
      ContainsInfix(x, parts[k], y, t);
      ContainsInfix("[", Join(parts, ","), "]", t);
    case JObj(ms) =>
      var k :| 0 <= k < |ms| && Mentions(ms[k].value, t);
      EncodeShowsMentioned(ms[k].value, t);
      if IsList(ms) {
        var parts := seq(|ms|, i requires 0 <= i < |ms| => Encode(ms[i].value));
        var x, y := JoinHasPart(parts, ",", k);
        ContainsInfix(x, parts[k], y, t);
        ContainsInfix("[", Join(parts, ","), "]", t);
      } else {
        var parts := seq(|ms|, i requires 0 <= i < |ms| => Quote(ms[i].key) + ":" + Encode(ms[i].value));
        ContainsInfix(Quote(ms[k].key) + ":", Encode(ms[k].value), [], t);
        assert parts[k] == Quote(ms[k].key) + ":" + Encode(ms[k].value) + [];
        var x, y := JoinHasPart(parts, ",", k);
        ContainsInfix(x, parts[k], y, t);
        ContainsInfix("{", Join(parts, ","), "}", t);
      }
  }
}
