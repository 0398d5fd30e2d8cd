/**
 * The JSON documents the app keeps under its storage keys, and the two library
 * calls it uses on them: `JSON.stringify` (Stringify) and `JSON.parse` (Parse, with
 * `None` where JSON.parse throws).  Numbers are kept as the text they were written
 * with; objects are member lists in insertion order, as JavaScript objects are.
 */
module Json {
  import opened Wrappers
  import opened Text

  datatype Json =
    | JNull
    | JBool(b: bool)
    | JNum(lexeme: string)
    | JStr(s: string)
    | JArr(items: seq<Json>)
    | JObj(members: seq<Member>)

  datatype Member = Member(key: string, value: Json)

  // ----- property access, the way JavaScript reads and writes object members -----

  /** The value stored under `key`, if the member list has one. */
  function Lookup(ms: seq<Member>, key: string): Option<Json>
  {
    if ms == [] then None
    else if ms[0].key == key then Some(ms[0].value)
    else Lookup(ms[1..], key)
  }

  /** `j.key` on a value that is not `null`: objects answer with their member, everything else with `undefined`. */
  function Get(j: Json, key: string): Option<Json>
  {
    if j.JObj? then Lookup(j.members, key) else None
  }

  /** `obj[key] = value`: an existing member keeps its place and takes the new value; a new one goes last. */
  function Put(ms: seq<Member>, key: string, value: Json): (r: seq<Member>)
    ensures |r| >= |ms|
  {
    if ms == [] then [Member(key, value)]
    else if ms[0].key == key then [Member(key, value)] + ms[1..]
    else [ms[0]] + Put(ms[1..], key, value)
  }

  /** A key is missing exactly when no member carries it; a found value is one member's value. */
  lemma {:induction false} LookupSpec(ms: seq<Member>, key: string)
    ensures Lookup(ms, key).None? <==> forall i :: 0 <= i < |ms| ==> ms[i].key != key
    ensures Lookup(ms, key).Some? ==> exists i :: 0 <= i < |ms| && ms[i] == Member(key, Lookup(ms, key).value)
  {
    if ms != [] && ms[0].key != key {
      LookupSpec(ms[1..], key);
      assert forall i :: 0 < i < |ms| ==> ms[i] == ms[1..][i - 1];
      if Lookup(ms, key).Some? {
        var i :| 0 <= i < |ms[1..]| && ms[1..][i] == Member(key, Lookup(ms, key).value);
        assert ms[i + 1] == Member(key, Lookup(ms, key).value);
      }
    }
  }

  /** After `obj[key] = value`, reading `key` gives `value` and every other key reads as before. */
  lemma {:induction false} PutLookup(ms: seq<Member>, key: string, value: Json, other: string)
    ensures Lookup(Put(ms, key, value), key) == Some(value)
    ensures other != key ==> Lookup(Put(ms, key, value), other) == Lookup(ms, other)
  {
    if ms != [] && ms[0].key != key {
      PutLookup(ms[1..], key, value, other);
      assert Put(ms, key, value)[1..] == Put(ms[1..], key, value);
    } else if ms != [] {
      assert Put(ms, key, value)[1..] == ms[1..];
    }
  }

  /** A new key is appended; an existing one is overwritten without moving or adding members. */
  lemma {:induction false} PutShape(ms: seq<Member>, key: string, value: Json)
    ensures Lookup(ms, key).None? ==> Put(ms, key, value) == ms + [Member(key, value)]
    ensures Lookup(ms, key).Some? ==> |Put(ms, key, value)| == |ms| && Keys(Put(ms, key, value)) == Keys(ms)
  {
    if ms != [] && ms[0].key != key {
      PutShape(ms[1..], key, value);
      assert Put(ms, key, value) == [ms[0]] + Put(ms[1..], key, value);
      KeysCons(ms[0], Put(ms[1..], key, value));
      KeysCons(ms[0], ms[1..]);
      assert [ms[0]] + ms[1..] == ms;
    } else if ms != [] {
      KeysCons(Member(key, value), ms[1..]);
      KeysCons(ms[0], ms[1..]);
      assert [ms[0]] + ms[1..] == ms;
    }
  }

  /** Every member after `obj[key] = value` is the new value or the member that was at its place. */
  lemma {:induction false} PutMembers(ms: seq<Member>, key: string, value: Json)
    ensures forall i :: 0 <= i < |Put(ms, key, value)| ==>
              Put(ms, key, value)[i] == Member(key, value) || (i < |ms| && Put(ms, key, value)[i] == ms[i])
  {
    if ms != [] && ms[0].key != key {
      PutMembers(ms[1..], key, value);
      var r := Put(ms, key, value);
      assert r == [ms[0]] + Put(ms[1..], key, value);
      forall i | 0 < i < |r|
        ensures r[i] == Member(key, value) || (i < |ms| && r[i] == ms[i])
      {
        assert r[i] == Put(ms[1..], key, value)[i - 1];
      }
    }
  }

  /** Setting a well-formed value on a well-formed object gives a well-formed object: `JSON.stringify` can write it and read it back. */
  lemma PutWellFormed(ms: seq<Member>, key: string, value: Json)
    requires WellFormed(JObj(ms)) && WellFormed(value)
    ensures WellFormed(JObj(Put(ms, key, value)))
  {
    var r := Put(ms, key, value);
    PutShape(ms, key, value);
    PutMembers(ms, key, value);
    LookupSpec(ms, key);
    if Lookup(ms, key).Some? {
      assert forall i :: 0 <= i < |r| ==> r[i].key == Keys(r)[i] == Keys(ms)[i] == ms[i].key;
    }
  }

  lemma KeysCons(m: Member, ms: seq<Member>)
    ensures Keys([m] + ms) == [m.key] + Keys(ms)
  {
    assert ([m] + ms)[1..] == ms;
  }

  /** The keys of a member list, in order. */
  function Keys(ms: seq<Member>): (r: seq<string>)
    ensures |r| == |ms|
    ensures forall i :: 0 <= i < |ms| ==> r[i] == ms[i].key
  {
    if ms == [] then [] else [ms[0].key] + Keys(ms[1..])
  }

  predicate DistinctKeys(ms: seq<Member>)
  {
    forall i, j :: 0 <= i < j < |ms| ==> ms[i].key != ms[j].key
  }

  /** Whether a number written as `lexeme` is zero: every digit before the exponent is `0`. */
  predicate IsZeroLexeme(lexeme: string)
  {
    forall i :: 0 <= i < |lexeme| && (forall k :: 0 <= k < i ==> lexeme[k] != 'e' && lexeme[k] != 'E') ==>
      lexeme[i] in {'-', '0', '.', 'e', 'E'}
  }

  /** JavaScript truthiness of a JSON value. */
  predicate Truthy(j: Json)
  {
    match j
    case JNull => false
    case JBool(b) => b
    case JNum(lexeme) => !IsZeroLexeme(lexeme)
    case JStr(s) => s != ""
    case JArr(_) => true
    case JObj(_) => true
  }

  /** JavaScript truthiness of a member read, where a missing member is `undefined`. */
  predicate TruthyOpt(v: Option<Json>)
  {
    v.Some? && Truthy(v.value)
  }

  /** `v ?? default`: the default replaces `undefined` and `null` only. */
  function OrIfNullish(v: Option<Json>, default: Json): (r: Json)
    ensures (v.None? || v == Some(JNull)) ==> r == default
    ensures (v.Some? && v != Some(JNull)) ==> r == v.value
  {
    if v.None? || v == Some(JNull) then default else v.value
  }

  /** `v || default`: the default replaces every falsy value. */
  function OrIfFalsy(v: Option<Json>, default: Json): (r: Json)
    ensures !TruthyOpt(v) ==> r == default
    ensures TruthyOpt(v) ==> r == v.value
  {
    if TruthyOpt(v) then v.value else default
  }

  /** `{...ms, ...from}`: the members of `from` assigned one by one onto `ms`. */
  function Spread(ms: seq<Member>, from: seq<Member>): seq<Member>
    decreases from
  {
    if from == [] then ms else Spread(Put(ms, from[0].key, from[0].value), from[1..])
  }

  /** After a spread a key reads as in the spread object when it has the key, and as before otherwise. */
  lemma {:induction false} SpreadLookup(ms: seq<Member>, from: seq<Member>, key: string)
    requires DistinctKeys(from)
    decreases from
    ensures Lookup(Spread(ms, from), key) == if Lookup(from, key).Some? then Lookup(from, key) else Lookup(ms, key)
  {
    if from != [] {
      var rest := from[1..];
      assert DistinctKeys(rest) by {
        forall i, j | 0 <= i < j < |rest|
          ensures rest[i].key != rest[j].key
        {
          assert rest[i] == from[i + 1] && rest[j] == from[j + 1];
        }
      }
      SpreadLookup(Put(ms, from[0].key, from[0].value), rest, key);
      PutLookup(ms, from[0].key, from[0].value, key);
      if key == from[0].key {
        LookupSpec(rest, key);
        assert forall i :: 0 <= i < |rest| ==> rest[i] == from[i + 1];
      }
    }
  }

  /** A key the spread object lacks reads as before the spread. */
  lemma {:induction false} SpreadKeeps(ms: seq<Member>, from: seq<Member>, key: string)
    requires Lookup(from, key).None?
    decreases from
    ensures Lookup(Spread(ms, from), key) == Lookup(ms, key)
  {
    if from != [] {
      SpreadKeeps(Put(ms, from[0].key, from[0].value), from[1..], key);
      PutLookup(ms, from[0].key, from[0].value, key);
    }
  }

  // ----- scanning a list of objects -----

  /** An object or an array, which `===` compares by identity. */
  predicate ByIdentity(v: Option<Json>)
  {
    v.Some? && (v.value.JObj? || v.value.JArr?)
  }

  /**
   * `a === b` on two read members, `None` standing for `undefined`. Every
   * list here is parsed or built afresh, so an object or an array is never
   * the very object it is compared with; numbers are compared as written.
   */
  predicate StrictEqual(a: Option<Json>, b: Option<Json>)
  {
    a == b && !ByIdentity(a)
  }

  /**
   * `xs.some(x => x[key] === v)`, with `v == None` standing for `undefined`:
   * `None` where the scan reaches a `null` element (reading its member
   * throws) before a match.
   */
  function SomeMember(xs: seq<Json>, key: string, v: Option<Json>): Option<bool>
  {
    if xs == [] then Some(false)
    else if xs[0] == JNull then None
    else if StrictEqual(Get(xs[0], key), v) then Some(true)
    else SomeMember(xs[1..], key, v)
  }

  /** The scan finds a match exactly where an element that is not `null` carries `v` under `key`, as `===` sees it, and no `null` comes before it. */
  lemma {:induction false} SomeMemberTrue(xs: seq<Json>, key: string, v: Option<Json>)
    ensures SomeMember(xs, key, v) == Some(true) <==>
              exists i :: 0 <= i < |xs| && xs[i] != JNull && StrictEqual(Get(xs[i], key), v) && forall k :: 0 <= k < i ==> xs[k] != JNull
  {
    if xs != [] && xs[0] != JNull && !StrictEqual(Get(xs[0], key), v) {
      var rest := xs[1..];
      SomeMemberTrue(rest, key, v);
      if SomeMember(rest, key, v) == Some(true) {
        var i :| 0 <= i < |rest| && rest[i] != JNull && StrictEqual(Get(rest[i], key), v) && forall k :: 0 <= k < i ==> rest[k] != JNull;
        assert forall k :: 0 <= k < i + 1 ==> xs[k] != JNull by {
          forall k | 0 <= k < i + 1
            ensures xs[k] != JNull
          {
            if k > 0 {
              assert xs[k] == rest[k - 1];
            }
          }
        }
        assert StrictEqual(Get(xs[i + 1], key), v);
      }
      if exists i :: 0 <= i < |xs| && xs[i] != JNull && StrictEqual(Get(xs[i], key), v) && forall k :: 0 <= k < i ==> xs[k] != JNull {
        var i :| 0 <= i < |xs| && xs[i] != JNull && StrictEqual(Get(xs[i], key), v) && forall k :: 0 <= k < i ==> xs[k] != JNull;
        assert i > 0;
        assert rest[i - 1] == xs[i];
        assert forall k :: 0 <= k < i - 1 ==> rest[k] == xs[k + 1];
      }
    }
  }

  /** The scan finds no match and no `null` exactly where no element is `null` or carries `v` under `key`. */
  lemma {:induction false} SomeMemberFalse(xs: seq<Json>, key: string, v: Option<Json>)
    ensures SomeMember(xs, key, v) == Some(false) <==>
              forall i :: 0 <= i < |xs| ==> xs[i] != JNull && !StrictEqual(Get(xs[i], key), v)
  {
    if xs != [] && xs[0] != JNull && !StrictEqual(Get(xs[0], key), v) {
      SomeMemberFalse(xs[1..], key, v);
      assert forall i :: 1 <= i < |xs| ==> xs[i] == xs[1..][i - 1];
    }
  }

  /** The scan throws exactly where a `null` comes before any element carrying `v` under `key`. */
  lemma {:induction false} SomeMemberNone(xs: seq<Json>, key: string, v: Option<Json>)
    ensures SomeMember(xs, key, v) == None <==>
              exists i :: 0 <= i < |xs| && xs[i] == JNull && forall k :: 0 <= k < i ==> !StrictEqual(Get(xs[k], key), v)
  {
    if xs != [] && xs[0] != JNull && !StrictEqual(Get(xs[0], key), v) {
      var rest := xs[1..];
      SomeMemberNone(rest, key, v);
      if SomeMember(rest, key, v) == None {
        var i :| 0 <= i < |rest| && rest[i] == JNull && forall k :: 0 <= k < i ==> !StrictEqual(Get(rest[k], key), v);
        assert forall k :: 0 <= k < i + 1 ==> !StrictEqual(Get(xs[k], key), v) by {
          forall k | 0 <= k < i + 1
            ensures !StrictEqual(Get(xs[k], key), v)
          {
            if k > 0 {
              assert xs[k] == rest[k - 1];
            }
          }
        }
        assert xs[i + 1] == JNull;
      }
      if exists i :: 0 <= i < |xs| && xs[i] == JNull && forall k :: 0 <= k < i ==> !StrictEqual(Get(xs[k], key), v) {
        var i :| 0 <= i < |xs| && xs[i] == JNull && forall k :: 0 <= k < i ==> !StrictEqual(Get(xs[k], key), v);
        assert i > 0;
        assert rest[i - 1] == xs[i];
        assert forall k :: 0 <= k < i - 1 ==> rest[k] == xs[k + 1];
      }
    }
  }

  // ----- JSON.stringify -----

  function HexChar(d: nat): (c: char)
    requires d < 16
    ensures HexDigitValue(c) == Some(d)
  {
    if d < 10 then ('0' as int + d) as char else ('a' as int + d - 10) as char
  }

  /** How `JSON.stringify` writes one character of a string. */
  function EscapeChar(c: char): string
  {
    if c == '"' then "\\\""
    else if c == '\\' then "\\\\"
    else if c as int == 8 then "\\b"
    else if c as int == 9 then "\\t"
    else if c as int == 10 then "\\n"
    else if c as int == 12 then "\\f"
    else if c as int == 13 then "\\r"
    else if c as int < 0x20 then "\\u00" + [HexChar(c as int / 16), HexChar(c as int % 16)]
    else [c]
  }

  function EscapeChars(s: string): string
  {
    if s == [] then [] else EscapeChar(s[0]) + EscapeChars(s[1..])
  }

  function Quote(s: string): string
  {
    "\"" + EscapeChars(s) + "\""
  }

  /** `JSON.stringify(j)` without indentation. */
  function Stringify(j: Json): string
    decreases j, 1
  {
    match j
    case JNull => "null"
    case JBool(b) => if b then "true" else "false"
    case JNum(lexeme) => lexeme
    case JStr(s) => Quote(s)
    case JArr(items) => "[" + StringifyItems(items) + "]"
    case JObj(ms) => "{" + StringifyMembers(ms) + "}"
  }

  function StringifyItems(items: seq<Json>): string
    decreases items, 0
  {
    if items == [] then ""
    else if |items| == 1 then Stringify(items[0])
    else Stringify(items[0]) + "," + StringifyItems(items[1..])
  }

  function StringifyMember(m: Member): string
    decreases m, 0
  {
    Quote(m.key) + ":" + Stringify(m.value)
  }

  function StringifyMembers(ms: seq<Member>): string
    decreases ms, 0
  {
    if ms == [] then ""
    else if |ms| == 1 then StringifyMember(ms[0])
    else StringifyMember(ms[0]) + "," + StringifyMembers(ms[1..])
  }

  // ----- JSON.parse -----

  predicate IsJsonWhitespace(c: char)
  {
    c == ' ' || c == '\t' || c == '\n' || c == '\r'
  }

  function SkipWs(s: string): (r: string)
    ensures |r| <= |s|
    ensures r == [] || !IsJsonWhitespace(r[0])
  {
    if |s| > 0 && IsJsonWhitespace(s[0]) then SkipWs(s[1..]) else s
  }

  /** The value of four hexadecimal digits at the start of `s`. */
  function Hex4(s: string): (r: Option<nat>)
    ensures r.Some? ==> |s| >= 4 && r.value < 0x10000
  {
    if |s| < 4 then None
    else match (HexDigitValue(s[0]), HexDigitValue(s[1]), HexDigitValue(s[2]), HexDigitValue(s[3]))
      case (Some(a), Some(b), Some(c), Some(d)) => Some(((a * 16 + b) * 16 + c) * 16 + d)
      case _ => None
  }

  /**
   * The character an escape sequence stands for, `s` being the text after the
   * backslash, and the text after the sequence.  A `\u` escape of a surrogate is
   * read together with the one that completes the pair.
   */
  function ParseEscape(s: string): (r: Option<(char, string)>)
    ensures r.Some? ==> |r.value.1| < |s|
  {
    if s == [] then None
    else if s[0] == '"' then Some(('"', s[1..]))
    else if s[0] == '\\' then Some(('\\', s[1..]))
    else if s[0] == '/' then Some(('/', s[1..]))
    else if s[0] == 'b' then Some((8 as char, s[1..]))
    else if s[0] == 'f' then Some((12 as char, s[1..]))
    else if s[0] == 'n' then Some((10 as char, s[1..]))
    else if s[0] == 'r' then Some((13 as char, s[1..]))
    else if s[0] == 't' then Some((9 as char, s[1..]))
    else if s[0] == 'u' then
      match Hex4(s[1..])
      case None => None
      case Some(v) =>
        if v < 0xD800 || 0xE000 <= v then Some((v as char, s[5..]))
        else if v < 0xDC00 && |s| >= 7 && s[5] == '\\' && s[6] == 'u' then
          match Hex4(s[7..])
          case Some(w) =>
            if 0xDC00 <= w < 0xE000 then Some(((0x10000 + (v - 0xD800) * 0x400 + (w - 0xDC00)) as char, s[11..]))
            else None
          case None => None
        else None
    else None
  }

  /** The characters of a string literal, `s` being the text after its opening quote, and the text after its closing quote. */
  function ParseStringBody(s: string): (r: Option<(string, string)>)
    ensures r.Some? ==> |r.value.1| < |s|
  {
    if s == [] then None
    else if s[0] == '"' then Some(([], s[1..]))
    else if s[0] == '\\' then
      match ParseEscape(s[1..])
      case None => None
      case Some((c, rest)) =>
        match ParseStringBody(rest)
        case None => None
        case Some((str, after)) => Some(([c] + str, after))
    else if s[0] as int < 0x20 then None
    else
      match ParseStringBody(s[1..])
      case None => None
      case Some((str, after)) => Some(([s[0]] + str, after))
  }

  /** The number of decimal digits at position `i` of `s`. */
  function DigitsAt(s: string, i: nat): (k: nat)
    requires i <= |s|
    ensures i + k <= |s|
    ensures forall p :: i <= p < i + k ==> IsDigit(s[p])
    ensures i + k < |s| ==> !IsDigit(s[i + k])
    decreases |s| - i
  {
    if i < |s| && IsDigit(s[i]) then 1 + DigitsAt(s, i + 1) else 0
  }

  /** The end of the exponent part of a number whose mantissa ends at `i`, or `None` if a digit is missing. */
  function ScanExponent(s: string, i: nat): (r: Option<nat>)
    requires i <= |s|
    ensures r.Some? ==> i <= r.value <= |s|
  {
    if i < |s| && (s[i] == 'e' || s[i] == 'E') then
      var j := if i + 1 < |s| && (s[i + 1] == '+' || s[i + 1] == '-') then i + 2 else i + 1;
      var k := DigitsAt(s, j);
      if k == 0 then None else Some(j + k)
    else Some(i)
  }

  /** The end of the fraction and exponent of a number whose integer part ends at `i`. */
  function ScanFraction(s: string, i: nat): (r: Option<nat>)
    requires i <= |s|
    ensures r.Some? ==> i <= r.value <= |s|
  {
    if i < |s| && s[i] == '.' then
      var k := DigitsAt(s, i + 1);
      if k == 0 then None else ScanExponent(s, i + 1 + k)
    else ScanExponent(s, i)
  }

  /** The length of the JSON number at the start of `s`: `-? (0 | [1-9][0-9]*) (. [0-9]+)? ([eE] [+-]? [0-9]+)?`. */
  function ScanNumber(s: string): (r: Option<nat>)
    ensures r.Some? ==> 1 <= r.value <= |s|
  {
    var i := if |s| > 0 && s[0] == '-' then 1 else 0;
    if i < |s| && s[i] == '0' then ScanFraction(s, i + 1)
    else if i < |s| && '1' <= s[i] <= '9' then ScanFraction(s, i + 1 + DigitsAt(s, i + 1))
    else None
  }

  /** A number lexeme `JSON.parse` accepts as a whole. */
  predicate ValidNumber(lexeme: string)
  {
    ScanNumber(lexeme) == Some(|lexeme|)
  }

  /** One JSON value after optional white space, and the text after it. */
  function ParseValue(s: string): (r: Option<(Json, string)>)
    ensures r.Some? ==> |r.value.1| < |s|
    decreases |s|, 0
  {
    var t := SkipWs(s);
    if t == [] then None
    else if t[0] == '{' then ParseObject(t[1..])
    else if t[0] == '[' then ParseArray(t[1..])
    else ParseScalar(t)
  }

  /** A string, literal or number at the very start of `t`. */
  function ParseScalar(t: string): (r: Option<(Json, string)>)
    ensures r.Some? ==> |r.value.1| < |t|
  {
    if t == [] then None
    else if t[0] == '"' then
      match ParseStringBody(t[1..])
      case None => None
      case Some((str, rest)) => Some((JStr(str), rest))
    else if t[0] == 't' then (if "true" <= t then Some((JBool(true), t[4..])) else None)
    else if t[0] == 'f' then (if "false" <= t then Some((JBool(false), t[5..])) else None)
    else if t[0] == 'n' then (if "null" <= t then Some((JNull, t[4..])) else None)
    else
      match ScanNumber(t)
      case None => None
      case Some(k) => Some((JNum(t[..k]), t[k..]))
  }

  /** The rest of an array, `s` being the text after `[`. */
  function ParseArray(s: string): (r: Option<(Json, string)>)
    ensures r.Some? ==> |r.value.1| < |s|
    decreases |s|, 2
  {
    var t := SkipWs(s);
    if |t| > 0 && t[0] == ']' then Some((JArr([]), t[1..]))
    else ParseElements(t, [])
  }

  /** Elements from `s` on, `acc` holding the ones already read, up to and including the closing `]`. */
  function ParseElements(s: string, acc: seq<Json>): (r: Option<(Json, string)>)
    ensures r.Some? ==> |r.value.1| < |s|
    decreases |s|, 1
  {
    match ParseValue(s)
    case None => None
    case Some((v, rest)) =>
      var t := SkipWs(rest);
      if |t| > 0 && t[0] == ',' then ParseElements(t[1..], acc + [v])
      else if |t| > 0 && t[0] == ']' then Some((JArr(acc + [v]), t[1..]))
      else None
  }

  /** The rest of an object, `s` being the text after `{`. */
  function ParseObject(s: string): (r: Option<(Json, string)>)
    ensures r.Some? ==> |r.value.1| < |s|
    decreases |s|, 2
  {
    var t := SkipWs(s);
    if |t| > 0 && t[0] == '}' then Some((JObj([]), t[1..]))
    else ParseMembers(t, [])
  }

  /** One `"key": value` member after optional white space, and the text after it. */
  function ParseMember(s: string): (r: Option<(Member, string)>)
    ensures r.Some? ==> |r.value.1| < |s|
    decreases |s|, 0
  {
    var t := SkipWs(s);
    if |t| == 0 || t[0] != '"' then None
    else
      match ParseStringBody(t[1..])
      case None => None
      case Some((key, afterKey)) =>
        var u := SkipWs(afterKey);
        if |u| == 0 || u[0] != ':' then None
        else
          match ParseValue(u[1..])
          case None => None
          case Some((v, rest)) => Some((Member(key, v), rest))
  }

  /**
   * Members from `s` on, `acc` holding the ones already read, up to and including the
   * closing `}`.  A repeated key keeps its first place and takes the later value.
   */
  function ParseMembers(s: string, acc: seq<Member>): (r: Option<(Json, string)>)
    ensures r.Some? ==> |r.value.1| < |s|
    decreases |s|, 1
  {
    match ParseMember(s)
    case None => None
    case Some((m, rest)) =>
      var w := SkipWs(rest);
      if |w| > 0 && w[0] == ',' then ParseMembers(w[1..], Put(acc, m.key, m.value))
      else if |w| > 0 && w[0] == '}' then Some((JObj(Put(acc, m.key, m.value)), w[1..]))
      else None
  }

  /** `JSON.parse(s)`: one value with nothing but white space around it; `None` where JSON.parse throws. */
  function Parse(s: string): Option<Json>
  {
    match ParseValue(s)
    case None => None
    case Some((j, rest)) => if SkipWs(rest) == [] then Some(j) else None
  }

  // ----- the round trip JSON.parse(JSON.stringify(j)) -----

  /** Values `JSON.stringify` writes and `JSON.parse` reads back unchanged: valid number lexemes and objects without repeated keys. */
  predicate WellFormed(j: Json)
  {
    match j
    case JNum(lexeme) => ValidNumber(lexeme)
    case JArr(items) => forall i :: 0 <= i < |items| ==> WellFormed(items[i])
    case JObj(ms) => DistinctKeys(ms) && forall i :: 0 <= i < |ms| ==> WellFormed(ms[i].value)
    case _ => true
  }

  /** Text that may follow a value inside a document: the end, or the punctuation after an element or member. */
  predicate Delimited(rest: string)
  {
    rest == [] || rest[0] in {',', ']', '}'}
  }

  lemma EscapeCharStep(c: char, tail: string)
    ensures ParseStringBody(EscapeChar(c) + tail) ==
      match ParseStringBody(tail)
      case None => None
      case Some((str, after)) => Some(([c] + str, after))
  {
    var s := EscapeChar(c) + tail;
    if c == '"' || c == '\\' || c as int in {8, 9, 10, 12, 13} {
      assert s[1..] == [EscapeChar(c)[1]] + tail;
    } else if c as int < 0x20 {
      var e := s[1..];
      assert e == "u00" + [HexChar(c as int / 16), HexChar(c as int % 16)] + tail;
      assert e[1..][..4] == "00" + [HexChar(c as int / 16), HexChar(c as int % 16)];
      assert Hex4(e[1..]) == Some(c as int);
      assert e[5..] == tail;
    } else {
      assert s[1..] == tail;
    }
  }

  lemma {:induction false} EscapeRoundTrip(str: string, rest: string)
    ensures ParseStringBody(EscapeChars(str) + "\"" + rest) == Some((str, rest))
  {
    if str == [] {
      assert EscapeChars(str) + "\"" + rest == "\"" + rest;
    } else {
      var tail := EscapeChars(str[1..]) + "\"" + rest;
      EscapeRoundTrip(str[1..], rest);
      assert EscapeChars(str) + "\"" + rest == EscapeChar(str[0]) + tail;
      EscapeCharStep(str[0], tail);
      assert [str[0]] + str[1..] == str;
    }
  }

  /** Text after a number that cannot be read as part of it. */
  predicate NumberBoundary(rest: string)
  {
    rest == [] || !(IsDigit(rest[0]) || rest[0] in {'+', '-', '.', 'e', 'E'})
  }

  lemma {:induction false} DigitsAtExtend(s: string, rest: string, i: nat)
    requires i <= |s| && NumberBoundary(rest)
    ensures DigitsAt(s + rest, i) == DigitsAt(s, i)
    decreases |s| - i
  {
    if i < |s| {
      assert (s + rest)[i] == s[i];
      if IsDigit(s[i]) {
        DigitsAtExtend(s, rest, i + 1);
      }
    } else if i < |s + rest| {
      assert (s + rest)[i] == rest[0];
    }
  }

  lemma ScanExponentExtend(s: string, rest: string, i: nat)
    requires i <= |s| && NumberBoundary(rest)
    ensures ScanExponent(s + rest, i) == ScanExponent(s, i)
  {
    var t := s + rest;
    assert forall p :: 0 <= p < |s| ==> t[p] == s[p];
    assert |t| > |s| ==> t[|s|] == rest[0];
    var j := if i + 1 < |s| && (s[i + 1] == '+' || s[i + 1] == '-') then i + 2 else i + 1;
    if i < |s| && (s[i] == 'e' || s[i] == 'E') && j <= |s| {
      DigitsAtExtend(s, rest, j);
    }
  }

  lemma ScanFractionExtend(s: string, rest: string, i: nat)
    requires i <= |s| && NumberBoundary(rest)
    ensures ScanFraction(s + rest, i) == ScanFraction(s, i)
  {
    var t := s + rest;
    assert forall p :: 0 <= p < |s| ==> t[p] == s[p];
    assert |t| > |s| ==> t[|s|] == rest[0];
    if i < |s| && s[i] == '.' {
      DigitsAtExtend(s, rest, i + 1);
      var k := DigitsAt(s, i + 1);
      if k != 0 {
        ScanExponentExtend(s, rest, i + 1 + k);
      }
    } else {
      ScanExponentExtend(s, rest, i);
    }
  }

  lemma ScanNumberExtend(s: string, rest: string)
    requires NumberBoundary(rest)
    ensures ScanNumber(s + rest) == ScanNumber(s)
  {
    var t := s + rest;
    assert forall p :: 0 <= p < |s| ==> t[p] == s[p];
    assert |t| > |s| ==> t[|s|] == rest[0];
    var i := if |s| > 0 && s[0] == '-' then 1 else 0;
    if i < |s| && s[i] == '0' {
      ScanFractionExtend(s, rest, i + 1);
    } else if i < |s| && '1' <= s[i] <= '9' {
      DigitsAtExtend(s, rest, i + 1);
      ScanFractionExtend(s, rest, i + 1 + DigitsAt(s, i + 1));
    }
  }

  lemma ValidNumberStart(lexeme: string)
    requires ValidNumber(lexeme)
    ensures |lexeme| > 0 && (lexeme[0] == '-' || IsDigit(lexeme[0]))
  {
  }

  /** What `JSON.stringify` writes starts with a character that opens a value. */
  lemma StringifyStart(j: Json)
    requires WellFormed(j)
    ensures |Stringify(j)| > 0
    ensures Stringify(j)[0] in {'n', 't', 'f', '"', '[', '{', '-'} || IsDigit(Stringify(j)[0])
  {
    if j.JNum? {
      ValidNumberStart(j.lexeme);
    }
  }

  /** How `ParseValue` reads text that does not start with white space. */
  lemma ParseValueOpen(t: string)
    requires |t| > 0 && !IsJsonWhitespace(t[0])
    ensures t[0] == '{' ==> ParseValue(t) == ParseObject(t[1..])
    ensures t[0] == '[' ==> ParseValue(t) == ParseArray(t[1..])
    ensures t[0] != '{' && t[0] != '[' ==> ParseValue(t) == ParseScalar(t)
  {
    assert SkipWs(t) == t;
  }

  lemma LiteralRoundTrip(j: Json, rest: string)
    requires (j.JNull? || j.JBool?) && Delimited(rest)
    ensures ParseValue(Stringify(j) + rest) == Some((j, rest))
  {
    var s := Stringify(j) + rest;
    ParseValueOpen(s);
    if j.JNull? || j.b { assert s[4..] == rest; } else { assert s[5..] == rest; }
  }

  /** How `ParseScalar` reads text that starts like a number. */
  lemma ParseScalarNumber(t: string)
    requires |t| > 0 && (t[0] == '-' || IsDigit(t[0]))
    ensures ParseScalar(t) == match ScanNumber(t) case None => None case Some(k) => Some((JNum(t[..k]), t[k..]))
  {
  }

  lemma NumberRoundTrip(lexeme: string, rest: string)
    requires ValidNumber(lexeme) && Delimited(rest)
    ensures ParseValue(lexeme + rest) == Some((JNum(lexeme), rest))
  {
    var s := lexeme + rest;
    ValidNumberStart(lexeme);
    assert s[0] == lexeme[0];
    ParseValueOpen(s);
    ParseScalarNumber(s);
    ScanNumberExtend(lexeme, rest);
    assert s[..|lexeme|] == lexeme && s[|lexeme|..] == rest;
  }

  lemma StringRoundTrip(str: string, rest: string)
    ensures ParseValue(Quote(str) + rest) == Some((JStr(str), rest))
  {
    var s := Quote(str) + rest;
    Assoc(EscapeChars(str), "\"", rest);
    assert s == "\"" + (EscapeChars(str) + "\"" + rest);
    ParseValueOpen(s);
    EscapeRoundTrip(str, rest);
  }

  lemma SplitFirst<T>(acc: seq<T>, xs: seq<T>)
    requires |xs| > 0
    ensures acc + [xs[0]] + xs[1..] == acc + xs
  {
    assert [xs[0]] + xs[1..] == xs;
  }

  lemma Assoc(a: string, b: string, c: string)
    ensures a + b + c == a + (b + c)
  {
  }

  /** How `ParseArray` and `ParseObject` read text that does not start with white space. */
  lemma ParseContainerStart(t: string)
    requires |t| > 0 && !IsJsonWhitespace(t[0])
    ensures ParseArray(t) == if t[0] == ']' then Some((JArr([]), t[1..])) else ParseElements(t, [])
    ensures ParseObject(t) == if t[0] == '}' then Some((JObj([]), t[1..])) else ParseMembers(t, [])
  {
    assert SkipWs(t) == t;
  }

  lemma {:induction false} ArrayRoundTrip(items: seq<Json>, rest: string)
    requires (forall i :: 0 <= i < |items| ==> WellFormed(items[i])) && Delimited(rest)
    ensures ParseValue("[" + (StringifyItems(items) + ("]" + rest))) == Some((JArr(items), rest))
    decreases items, 1
  {
    var body := StringifyItems(items) + ("]" + rest);
    ParseValueOpen("[" + body);
    assert ("[" + body)[1..] == body;
    if items == [] {
      assert body == "]" + rest;
      ParseContainerStart(body);
    } else {
      ItemsStart(items, "]" + rest);
      ParseContainerStart(body);
      ItemsRoundTrip(items, [], rest);
      assert [] + items == items;
    }
  }

  lemma {:induction false} ObjectRoundTrip(ms: seq<Member>, rest: string)
    requires DistinctKeys(ms) && (forall i :: 0 <= i < |ms| ==> WellFormed(ms[i].value)) && Delimited(rest)
    ensures ParseValue("{" + (StringifyMembers(ms) + ("}" + rest))) == Some((JObj(ms), rest))
    decreases ms, 1
  {
    var body := StringifyMembers(ms) + ("}" + rest);
    ParseValueOpen("{" + body);
    assert ("{" + body)[1..] == body;
    if ms == [] {
      assert body == "}" + rest;
      ParseContainerStart(body);
    } else {
      MembersStart(ms, "}" + rest);
      ParseContainerStart(body);
      assert [] + ms == ms;
      MembersRoundTrip(ms, [], rest);
    }
  }

  lemma {:induction false} ValueRoundTrip(j: Json, rest: string)
    requires WellFormed(j) && Delimited(rest)
    ensures ParseValue(Stringify(j) + rest) == Some((j, rest))
    decreases j, 2
  {
    match j
    case JNull => LiteralRoundTrip(j, rest);
    case JBool(_) => LiteralRoundTrip(j, rest);
    case JNum(lexeme) => NumberRoundTrip(lexeme, rest);
    case JStr(str) => StringRoundTrip(str, rest);
    case JArr(items) =>
      Assoc("[", StringifyItems(items), "]");
      Assoc("[", StringifyItems(items) + "]", rest);
      Assoc(StringifyItems(items), "]", rest);
      ArrayRoundTrip(items, rest);
    case JObj(ms) =>
      Assoc("{", StringifyMembers(ms), "}");
      Assoc("{", StringifyMembers(ms) + "}", rest);
      Assoc(StringifyMembers(ms), "}", rest);
      ObjectRoundTrip(ms, rest);
  }

  lemma MembersStart(ms: seq<Member>, tail: string)
    requires |ms| > 0
    ensures |StringifyMembers(ms) + tail| > 0 && (StringifyMembers(ms) + tail)[0] == '"'
  {
  }

  lemma ItemsStart(items: seq<Json>, tail: string)
    requires |items| > 0 && WellFormed(items[0])
    ensures |StringifyItems(items) + tail| > 0
    ensures (StringifyItems(items) + tail)[0] in {'n', 't', 'f', '"', '[', '{', '-'} || IsDigit((StringifyItems(items) + tail)[0])
  {
    StringifyStart(items[0]);
  }

  /** How `ParseElements` goes on after reading one element. */
  lemma ElementsStep(s: string, acc: seq<Json>, v: Json, rest: string)
    requires ParseValue(s) == Some((v, rest)) && |rest| > 0
    ensures rest[0] == ',' ==> ParseElements(s, acc) == ParseElements(rest[1..], acc + [v])
    ensures rest[0] == ']' ==> ParseElements(s, acc) == Some((JArr(acc + [v]), rest[1..]))
  {
    if rest[0] == ',' || rest[0] == ']' {
      assert SkipWs(rest) == rest;
    }
  }

  /** The text of two or more elements: the first, a comma, then the others. */
  lemma ItemsText(items: seq<Json>, tail: string)
    requires |items| > 1
    ensures StringifyItems(items) + tail == Stringify(items[0]) + ("," + (StringifyItems(items[1..]) + tail))
  {
    Assoc(Stringify(items[0]) + ",", StringifyItems(items[1..]), tail);
    Assoc(Stringify(items[0]), ",", StringifyItems(items[1..]) + tail);
  }

  lemma {:induction false} ItemsRoundTrip(items: seq<Json>, acc: seq<Json>, rest: string)
    requires |items| > 0 && (forall i :: 0 <= i < |items| ==> WellFormed(items[i])) && Delimited(rest)
    ensures ParseElements(StringifyItems(items) + ("]" + rest), acc) == Some((JArr(acc + items), rest))
    decreases items, 0
  {
    var head := items[0];
    if |items| == 1 {
      ValueRoundTrip(head, "]" + rest);
      ElementsStep(Stringify(head) + ("]" + rest), acc, head, "]" + rest);
      assert ("]" + rest)[1..] == rest;
      assert acc + items == acc + [head];
    } else {
      var tail := StringifyItems(items[1..]) + ("]" + rest);
      ItemsText(items, "]" + rest);
      ValueRoundTrip(head, "," + tail);
      ElementsStep(Stringify(head) + ("," + tail), acc, head, "," + tail);
      assert ("," + tail)[1..] == tail;
      assert forall i :: 0 <= i < |items[1..]| ==> items[1..][i] == items[i + 1];
      ItemsRoundTrip(items[1..], acc + [head], rest);
      SplitFirst(acc, items);
    }
  }

  /** How `ParseMember` reads a key, a colon and a value that follow each other without white space. */
  lemma MemberStep(s: string, key: string, afterKey: string, v: Json, rest: string)
    requires |s| > 0 && s[0] == '"' && ParseStringBody(s[1..]) == Some((key, afterKey))
    requires |afterKey| > 0 && afterKey[0] == ':' && ParseValue(afterKey[1..]) == Some((v, rest))
    ensures ParseMember(s) == Some((Member(key, v), rest))
  {
    assert SkipWs(s) == s;
    assert SkipWs(afterKey) == afterKey;
  }

  /** How `ParseMembers` goes on after reading one member. */
  lemma MembersStep(s: string, acc: seq<Member>, m: Member, rest: string)
    requires ParseMember(s) == Some((m, rest)) && |rest| > 0
    ensures rest[0] == ',' ==> ParseMembers(s, acc) == ParseMembers(rest[1..], Put(acc, m.key, m.value))
    ensures rest[0] == '}' ==> ParseMembers(s, acc) == Some((JObj(Put(acc, m.key, m.value)), rest[1..]))
  {
    if rest[0] == ',' || rest[0] == '}' {
      assert SkipWs(rest) == rest;
    }
  }

  lemma StringifyMemberText(m: Member, after: string)
    ensures StringifyMember(m) + after == "\"" + (EscapeChars(m.key) + ("\"" + (":" + (Stringify(m.value) + after))))
  {
  }

  lemma {:induction false} MemberRoundTrip(m: Member, after: string)
    requires WellFormed(m.value) && Delimited(after)
    ensures ParseMember(StringifyMember(m) + after) == Some((m, after))
    decreases m, 1
  {
    var s := StringifyMember(m) + after;
    var afterKey := ":" + (Stringify(m.value) + after);
    StringifyMemberText(m, after);
    assert s[1..] == EscapeChars(m.key) + ("\"" + afterKey);
    Assoc(EscapeChars(m.key), "\"", afterKey);
    EscapeRoundTrip(m.key, afterKey);
    assert afterKey[1..] == Stringify(m.value) + after;
    ValueRoundTrip(m.value, after);
    MemberStep(s, m.key, afterKey, m.value, after);
  }

  /** The text of two or more members: the first, a comma, then the others. */
  lemma MembersText(ms: seq<Member>, tail: string)
    requires |ms| > 1
    ensures StringifyMembers(ms) + tail == StringifyMember(ms[0]) + ("," + (StringifyMembers(ms[1..]) + tail))
  {
    Assoc(StringifyMember(ms[0]) + ",", StringifyMembers(ms[1..]), tail);
    Assoc(StringifyMember(ms[0]), ",", StringifyMembers(ms[1..]) + tail);
  }

  /** Reading a member whose key is new appends it. */
  lemma PutFresh(acc: seq<Member>, ms: seq<Member>)
    requires |ms| > 0 && DistinctKeys(acc + ms)
    ensures Put(acc, ms[0].key, ms[0].value) == acc + [ms[0]]
    ensures DistinctKeys(acc + [ms[0]] + ms[1..])
  {
    assert forall i :: 0 <= i < |acc| ==> (acc + ms)[i] == acc[i] && (acc + ms)[|acc|] == ms[0];
    LookupSpec(acc, ms[0].key);
    PutShape(acc, ms[0].key, ms[0].value);
    SplitFirst(acc, ms);
  }

  lemma {:induction false} MembersRoundTrip(ms: seq<Member>, acc: seq<Member>, rest: string)
    requires |ms| > 0 && (forall i :: 0 <= i < |ms| ==> WellFormed(ms[i].value)) && Delimited(rest)
    requires DistinctKeys(acc + ms)
    ensures ParseMembers(StringifyMembers(ms) + ("}" + rest), acc) == Some((JObj(acc + ms), rest))
    decreases ms, 0
  {
    var m := ms[0];
    PutFresh(acc, ms);
    if |ms| == 1 {
      MemberRoundTrip(m, "}" + rest);
      MembersStep(StringifyMember(m) + ("}" + rest), acc, m, "}" + rest);
      assert ("}" + rest)[1..] == rest;
      assert acc + ms == acc + [m];
    } else {
      var tail := StringifyMembers(ms[1..]) + ("}" + rest);
      MembersText(ms, "}" + rest);
      MemberRoundTrip(m, "," + tail);
      MembersStep(StringifyMember(m) + ("," + tail), acc, m, "," + tail);
      assert ("," + tail)[1..] == tail;
      assert forall i :: 0 <= i < |ms[1..]| ==> ms[1..][i] == ms[i + 1];
      MembersRoundTrip(ms[1..], acc + [m], rest);
      SplitFirst(acc, ms);
    }
  }

  /** `JSON.parse(JSON.stringify(j))` gives back `j`. */
  lemma ParseStringify(j: Json)
    requires WellFormed(j)
    ensures Parse(Stringify(j)) == Some(j)
  {
    ValueRoundTrip(j, []);
    assert Stringify(j) + [] == Stringify(j);
  }
}
