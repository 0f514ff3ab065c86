/**
 * Parsed JSON documents as the setup scripts see them: JavaScript property
 * reads and assignments on the objects JSON.parse returns, and the text
 * JSON.stringify(value, null, 2) produces.
 */
module Json {
  import opened Wrappers
  import opened Text

  /** JSON.parse results. Numbers are integers; objects keep member order. */
  datatype Json =
    | JNull
    | JBool(b: bool)
    | JNum(n: int)
    | JStr(s: string)
    | JArr(items: seq<Json>)
    | JObj(members: seq<Member>)

  datatype Member = Member(key: string, value: Json)

  /** What JavaScript throws when a script reads or writes through a bad value. */
  datatype Fault = TypeError

  /** A property key that is a canonical array index ("0", "1", "17", not "01"). */
  function ArrayIndex(key: string): (r: Option<nat>)
    ensures r.Some? ==> key == NatToString(r.value)
  {
    if key == [] || exists i :: 0 <= i < |key| && !IsAsciiDigit(key[i]) then None
    else if |key| > 1 && key[0] == '0' then None
    else
      var n := DigitsValue(key);
      if NatToString(n) == key then Some(n) else None
  }

  function DigitsValue(key: string): nat
    decreases |key|
  {
    if key == [] then 0
    else 10 * DigitsValue(key[..|key| - 1]) + (if IsAsciiDigit(key[|key| - 1]) then key[|key| - 1] as int - '0' as int else 0)
  }

  /**
   * The property names the scripts assign and read: neither an array
   * index nor `length`, so an array or a string has no such own property.
   */
  predicate IsPlainName(key: string) {
    ArrayIndex(key).None? && key != "length"
  }

  /** A name that starts with a non-digit is not an array index. */
  lemma PlainName(key: string)
    requires key != [] && !IsAsciiDigit(key[0]) && key != "length"
    ensures IsPlainName(key)
  {
    assert !IsAsciiDigit(key[0]);
  }

  /** A value a property can be assigned on: an object or an array. */
  predicate IsContainer(v: Option<Json>) {
    v.Some? && (v.value.JObj? || v.value.JArr?)
  }

  /** The index of the first member with this key (JSON.parse never yields two). */
  function Find(members: seq<Member>, key: string): (r: Option<nat>)
    ensures r.Some? ==> r.value < |members| && members[r.value].key == key
    ensures r.Some? ==> forall i :: 0 <= i < r.value ==> members[i].key != key
    ensures r.None? ==> forall i :: 0 <= i < |members| ==> members[i].key != key
  {
    if members == [] then None
    else if members[0].key == key then Some(0)
    else match Find(members[1..], key)
      case None => None
      case Some(i) => Some(i + 1)
  }

  /** The value reached by one property step inside the document, if any. */
  function Child(v: Json, key: string): Option<Json> {
    match v
    case JObj(ms) =>
      (match Find(ms, key)
       case Some(i) => Some(ms[i].value)
       case None => None)
    case JArr(items) =>
      (match ArrayIndex(key)
       case Some(i) => if i < |items| then Some(items[i]) else None
       case None => None)
    case _ => None
  }

  /** The value at a path of property steps, or None when the path leaves the document. */
  function Lookup(v: Json, path: seq<string>): Option<Json>
    decreases |path|
  {
    if path == [] then Some(v)
    else match Child(v, path[0])
      case None => None
      case Some(c) => Lookup(c, path[1..])
  }

  /**
   * JavaScript `v.key` on a value read from the document: null throws,
   * and a primitive has no own property with a plain name.
   */
  function Get(v: Json, key: string): (r: Result<Option<Json>, Fault>)
    requires IsPlainName(key)
    ensures r.Failure? <==> v == JNull
    ensures r.Success? ==> r.value == Child(v, key)
  {
    if v.JNull? then Failure(TypeError) else Success(Child(v, key))
  }

  /** JavaScript truthiness of a property value (undefined is None). */
  predicate Truthy(v: Option<Json>) {
    match v
    case None => false
    case Some(JNull) => false
    case Some(JBool(b)) => b
    case Some(JNum(n)) => n != 0
    case Some(JStr(s)) => s != []
    case Some(_) => true
  }

  /** Members other than those with this key. */
  function Without(ms: seq<Member>, key: string): (r: seq<Member>)
    ensures forall i :: 0 <= i < |r| ==> r[i].key != key && r[i] in ms
    ensures forall k :: k != key ==> Find(r, k).None? == Find(ms, k).None?
    ensures forall k :: k != key && Find(ms, k).Some? ==> r[Find(r, k).value] == ms[Find(ms, k).value]
  {
    if ms == [] then []
    else if ms[0].key == key then Without(ms[1..], key)
    else [ms[0]] + Without(ms[1..], key)
  }

  /**
   * JavaScript `v.key = val` in strict mode, as seen through JSON.stringify:
   * on an object the member is set (or, for undefined, dropped from the
   * output); on an array a plain-named property is not serialised; on null
   * or a primitive the assignment throws.
   */
  function Put(v: Json, key: string, val: Option<Json>): (r: Result<Json, Fault>)
    requires IsPlainName(key)
    ensures r.Success? <==> v.JObj? || v.JArr?
  {
    match v
    case JObj(ms) =>
      (match val
       case None => Success(JObj(Without(ms, key)))
       case Some(x) =>
         match Find(ms, key)
         case Some(i) => Success(JObj(ms[i := Member(key, x)]))
         case None => Success(JObj(ms + [Member(key, x)])))
    case JArr(_) => Success(v)
    case _ => Failure(TypeError)
  }

  /** `v` with the child at `key` (which exists) replaced by `c`. */
  function ReplaceChild(v: Json, key: string, c: Json): Json
    requires Child(v, key).Some?
  {
    match v
    case JObj(ms) => var i := Find(ms, key).value; JObj(ms[i := Member(key, c)])
    case JArr(items) => JArr(items[ArrayIndex(key).value := c])
  }

  /**
   * JavaScript `v.p0.p1…pn.key = val`: every step must reach a value
   * inside the document (otherwise the read yields undefined or a
   * primitive, and the next step or the assignment throws).
   */
  function Assign(v: Json, path: seq<string>, key: string, val: Option<Json>): (r: Result<Json, Fault>)
    requires IsPlainName(key)
    ensures r.Success? <==> (Lookup(v, path).Some? && (Lookup(v, path).value.JObj? || Lookup(v, path).value.JArr?))
    decreases |path|
  {
    if path == [] then Put(v, key, val)
    else match Child(v, path[0])
      case None => Failure(TypeError)
      case Some(c) =>
        match Assign(c, path[1..], key, val)
        case Failure(e) => Failure(e)
        case Success(c') => Success(ReplaceChild(v, path[0], c'))
  }

  /** Neither path is a prefix of the other. */
  predicate Diverges(p: seq<string>, q: seq<string>) {
    exists i :: 0 <= i < |p| && i < |q| && p[i] != q[i]
  }

  lemma ChildOfReplaced(v: Json, key: string, c: Json, k: string)
    requires Child(v, key).Some?
    ensures Child(ReplaceChild(v, key, c), key) == Some(c)
    ensures k != key ==> Child(ReplaceChild(v, key, c), k) == Child(v, k)
  {
    match v
    case JObj(ms) =>
      var i := Find(ms, key).value;
      var ms' := ms[i := Member(key, c)];
      assert forall j :: 0 <= j < |ms| ==> ms'[j].key == ms[j].key;
      FindSameKeys(ms, ms', key);
      FindSameKeys(ms, ms', k);
    case JArr(items) =>
      if ArrayIndex(k).Some? && k != key {
        assert ArrayIndex(k).value != ArrayIndex(key).value;
      }
  }

  /** Putting back the child that is already there changes nothing. */
  lemma ReplaceSameChild(v: Json, key: string, c: Json)
    requires Child(v, key) == Some(c)
    ensures ReplaceChild(v, key, c) == v
  {
    match v
    case JObj(ms) =>
      var i := Find(ms, key).value;
      assert ms[i := Member(key, c)] == ms;
    case JArr(items) =>
      assert items[ArrayIndex(key).value := c] == items;
  }

  /** Find only looks at keys. */
  lemma {:induction false} FindSameKeys(ms: seq<Member>, ms': seq<Member>, k: string)
    requires |ms| == |ms'|
    requires forall j :: 0 <= j < |ms| ==> ms'[j].key == ms[j].key
    ensures Find(ms', k) == Find(ms, k)
  {
    if ms != [] {
      FindSameKeys(ms[1..], ms'[1..], k);
    }
  }

  /**
   * After a successful assignment, every path that diverges from the
   * assigned one reads as before: the assignment changes nothing else.
   */
  lemma {:induction false} AssignFrame(v: Json, path: seq<string>, key: string, val: Option<Json>, q: seq<string>)
    requires IsPlainName(key)
    requires Assign(v, path, key, val).Success?
    requires Diverges(path + [key], q)
    ensures Lookup(Assign(v, path, key, val).value, q) == Lookup(v, q)
    decreases |path|
  {
    var r := Assign(v, path, key, val).value;
    var i :| 0 <= i < |path + [key]| && i < |q| && (path + [key])[i] != q[i];
    if path == [] {
      assert q[0] != key;
      if v.JObj? && val.Some? {
        var ms, x := v.members, val.value;
        match Find(ms, key) {
          case Some(j) =>
            FindSameKeys(ms, ms[j := Member(key, x)], q[0]);
          case None =>
            FindAppend(ms, Member(key, x), q[0]);
        }
      }
    } else {
      var c := Child(v, path[0]).value;
      var c' := Assign(c, path[1..], key, val).value;
      ChildOfReplaced(v, path[0], c', q[0]);
      if q[0] == path[0] {
        assert i > 0;
        assert (path[1..] + [key])[i - 1] == (path + [key])[i];
        assert q[1..][i - 1] == q[i];
        AssignFrame(c, path[1..], key, val, q[1..]);
      }
    }
  }

  /** The object (or array) assigned into stays an object (or array) at its path. */
  lemma {:induction false} AssignKeepsShape(v: Json, path: seq<string>, key: string, val: Option<Json>)
    requires IsPlainName(key)
    requires Assign(v, path, key, val).Success?
    ensures var after := Lookup(Assign(v, path, key, val).value, path);
      after.Some? && (after.value.JObj? <==> Lookup(v, path).value.JObj?) && (after.value.JArr? <==> Lookup(v, path).value.JArr?)
    decreases |path|
  {
    if path != [] {
      var c := Child(v, path[0]).value;
      AssignKeepsShape(c, path[1..], key, val);
      var c' := Assign(c, path[1..], key, val).value;
      ChildOfReplaced(v, path[0], c', path[0]);
    }
  }

  lemma {:induction false} FindAppend(ms: seq<Member>, m: Member, k: string)
    requires k != m.key
    ensures Find(ms + [m], k) == Find(ms, k)
  {
    if ms != [] {
      assert (ms + [m])[1..] == ms[1..] + [m];
      FindAppend(ms[1..], m, k);
    }
  }

  /** An assignment of a value into an object makes the path read that value. */
  lemma {:induction false} AssignSets(v: Json, path: seq<string>, key: string, x: Json)
    requires IsPlainName(key)
    requires Lookup(v, path).Some? && Lookup(v, path).value.JObj?
    ensures Assign(v, path, key, Some(x)).Success?
    ensures Lookup(Assign(v, path, key, Some(x)).value, path + [key]) == Some(x)
    decreases |path|
  {
    var r := Assign(v, path, key, Some(x)).value;
    if path == [] {
      var ms := v.members;
      assert [key][1..] == [];
      match Find(ms, key)
      case Some(j) =>
        FindSameKeys(ms, ms[j := Member(key, x)], key);
      case None =>
        FindLast(ms, Member(key, x));
    } else {
      var c := Child(v, path[0]).value;
      AssignSets(c, path[1..], key, x);
      var c' := Assign(c, path[1..], key, Some(x)).value;
      ChildOfReplaced(v, path[0], c', path[0]);
      assert (path + [key])[1..] == path[1..] + [key];
    }
  }

  lemma {:induction false} FindLast(ms: seq<Member>, m: Member)
    requires Find(ms, m.key).None?
    ensures Find(ms + [m], m.key) == Some(|ms|)
  {
    if ms != [] {
      assert (ms + [m])[1..] == ms[1..] + [m];
      FindLast(ms[1..], m);
    }
  }

  /** Assigning `undefined` makes the member disappear from the output. */
  lemma {:induction false} AssignUndefinedDrops(v: Json, path: seq<string>, key: string)
    requires IsPlainName(key)
    requires Lookup(v, path).Some? && Lookup(v, path).value.JObj?
    ensures Assign(v, path, key, None).Success?
    ensures Lookup(Assign(v, path, key, None).value, path + [key]) == None
    decreases |path|
  {
    if path == [] {
      assert [key][1..] == [];
    } else {
      var c := Child(v, path[0]).value;
      AssignUndefinedDrops(c, path[1..], key);
      var c' := Assign(c, path[1..], key, None).value;
      ChildOfReplaced(v, path[0], c', path[0]);
      assert (path + [key])[1..] == path[1..] + [key];
    }
  }

  /**
   * Assigning the value a path already holds leaves the document as it is,
   * and so does assigning a plain name on an array, which is not written.
   */
  lemma {:induction false} AssignSameValue(v: Json, path: seq<string>, key: string, x: Json)
    requires IsPlainName(key)
    requires Lookup(v, path + [key]) == Some(x) || (Lookup(v, path).Some? && Lookup(v, path).value.JArr?)
    ensures Assign(v, path, key, Some(x)) == Success(v)
    decreases |path|
  {
    if path == [] {
      assert [key][1..] == [];
      if v.JObj? {
        var ms := v.members;
        var j := Find(ms, key).value;
        assert ms[j := Member(key, x)] == ms;
      }
    } else {
      var c := Child(v, path[0]).value;
      assert (path + [key])[1..] == path[1..] + [key];
      AssignSameValue(c, path[1..], key, x);
      match v
      case JObj(ms) =>
        var j := Find(ms, path[0]).value;
        assert ms[j := Member(path[0], c)] == ms;
      case JArr(items) =>
        assert items[ArrayIndex(path[0]).value := c] == items;
    }
  }

  // ---------------------------------------------------------------------
  // JSON.stringify(value, null, 2)
  // ---------------------------------------------------------------------

  function HexDigit(d: nat): char
    requires d < 16
  {
    if d < 10 then DigitChar(d) else ('a' as int + d - 10) as char
  }

  /** The escape JSON.stringify writes for one character of a string. */
  function EscapeChar(c: char): (e: string)
    ensures e != []
    ensures '\n' !in e
  {
    if c == '"' then "\\\""
    else if c == '\\' then "\\\\"
    else if c == '\U{0008}' then "\\b"
    else if c == '\U{000C}' then "\\f"
    else if c == '\n' then "\\n"
    else if c == '\r' then "\\r"
    else if c == '\t' then "\\t"
    else if c < ' ' then "\\u00" + [HexDigit(c as int / 16), HexDigit(c as int % 16)]
    else [c]
  }

  /** A string literal as JSON.stringify writes it. */
  function Quote(s: string): (q: string)
    ensures |q| >= 2 && q[0] == '"' && q[|q| - 1] == '"'
    ensures '\n' !in q
  {
    "\"" + EscapeAll(s) + "\""
  }

  function EscapeAll(s: string): (r: string)
    ensures '\n' !in r
  {
    if s == [] then [] else EscapeChar(s[0]) + EscapeAll(s[1..])
  }

  /**
   * The serialisation of `v` when it starts at indentation `indent`:
   * non-empty arrays and objects put each element on its own line, two
   * spaces deeper, separated by commas, and close at `indent`.
   */
  function Stringify(v: Json, indent: string): (r: string)
    ensures r != [] && r[|r| - 1] != '\n'
    ensures r[|r| - 1] in "\"el]}" || IsAsciiDigit(r[|r| - 1])
    decreases v
  {
    match v
    case JNull => "null"
    case JBool(b) => if b then "true" else "false"
    case JNum(n) => IntToString(n)
    case JStr(s) => Quote(s)
    case JArr(items) =>
      if items == [] then "[]"
      else
        var inner := indent + "  ";
        var parts := seq(|items|, i requires 0 <= i < |items| => Stringify(items[i], inner));
        "[\n" + inner + Join(parts, ",\n" + inner) + "\n" + indent + "]"
    case JObj(ms) =>
      if ms == [] then "{}"
      else
        var inner := indent + "  ";
        var parts := seq(|ms|, i requires 0 <= i < |ms| => Quote(ms[i].key) + ": " + Stringify(ms[i].value, inner));
        "{\n" + inner + Join(parts, ",\n" + inner) + "\n" + indent + "}"
  }

  /** Every line break in `s` is followed by `indent`. */
  predicate BreaksIndented(s: string, indent: string) {
    forall i :: 0 <= i < |s| && s[i] == '\n' ==> StartsWith(s[i + 1..], indent)
  }

  lemma BreaksIndentedConcat(a: string, b: string, indent: string)
    requires BreaksIndented(a, indent) && BreaksIndented(b, indent)
    requires a != [] && a[|a| - 1] == '\n' ==> StartsWith(b, indent)
    ensures BreaksIndented(a + b, indent)
  {
    var s := a + b;
    forall i | 0 <= i < |s| && s[i] == '\n'
      ensures StartsWith(s[i + 1..], indent)
    {
      if i < |a| - 1 {
        assert s[i] == a[i];
        assert s[i + 1..] == a[i + 1..] + b;
      } else if i == |a| - 1 {
        assert s[i + 1..] == b;
      } else {
        assert s[i] == b[i - |a|];
        assert s[i + 1..] == b[i - |a| + 1..];
      }
    }
  }

  /** A line break followed by a deeper indentation is followed by the shallower one too. */
  lemma BreaksIndentedDeeper(s: string, indent: string, more: string)
    requires BreaksIndented(s, indent + more)
    ensures BreaksIndented(s, indent)
  {
    forall i | 0 <= i < |s| && s[i] == '\n'
      ensures StartsWith(s[i + 1..], indent)
    {
      assert s[i + 1..][..|indent + more|][..|indent|] == s[i + 1..][..|indent|];
    }
  }

  lemma {:induction false} JoinIndented(parts: seq<string>, sep: string, indent: string)
    requires parts != []
    requires forall i :: 0 <= i < |parts| ==> parts[i] != [] && parts[i][|parts[i]| - 1] != '\n' && BreaksIndented(parts[i], indent)
    requires sep != [] && sep[|sep| - 1] != '\n' && BreaksIndented(sep, indent)
    ensures var j := Join(parts, sep); j != [] && j[|j| - 1] != '\n' && BreaksIndented(j, indent)
    decreases |parts|
  {
    if |parts| > 1 {
      var rest := Join(parts[1..], sep);
      JoinIndented(parts[1..], sep, indent);
      BreaksIndentedConcat(parts[0], sep, indent);
      BreaksIndentedConcat(parts[0] + sep, rest, indent);
      assert Join(parts, sep) == parts[0] + sep + rest;
    }
  }

  /** Text with a single line break, followed by `indent`. */
  lemma OneBreak(pre: string, t: string, indent: string)
    requires '\n' !in pre && '\n' !in t && StartsWith(t, indent)
    ensures BreaksIndented(pre + "\n" + t, indent)
  {
    var s := pre + "\n" + t;
    assert forall k :: 0 <= k < |pre| ==> s[k] == pre[k];
    assert forall k :: |pre| < k < |s| ==> s[k] == t[k - |pre| - 1];
    assert s[|pre| + 1..] == t;
  }

  /** A container laid out from its opening bracket, the joined parts and its closing bracket. */
  lemma ContainerIndented(opening: char, joined: string, indent: string, close: char)
    requires '\n' !in indent && opening != '\n' && close != '\n'
    requires joined != [] && joined[|joined| - 1] != '\n' && BreaksIndented(joined, indent + "  ")
    ensures BreaksIndented([opening, '\n'] + (indent + "  ") + joined + "\n" + indent + [close], indent)
  {
    var inner := indent + "  ";
    assert inner[..|indent|] == indent;
    OneBreak([opening], inner, indent);
    var head := [opening] + "\n" + inner;
    BreaksIndentedDeeper(joined, indent, "  ");
    BreaksIndentedConcat(head, joined, indent);
    var tail := [] + "\n" + (indent + [close]);
    assert (indent + [close])[..|indent|] == indent;
    OneBreak([], indent + [close], indent);
    BreaksIndentedConcat(head + joined, tail, indent);
    assert head + joined + tail == [opening, '\n'] + (indent + "  ") + joined + "\n" + indent + [close];
  }

  /**
   * The two-space layout: inside the text of a value that starts at
   * indentation `indent`, every line after the first begins with at least
   * that indentation. This is a lower bound only: it does not fix the
   * indentation of each line exactly.
   */
  lemma {:induction false} StringifyIndented(v: Json, indent: string)
    requires '\n' !in indent
    ensures BreaksIndented(Stringify(v, indent), indent)
    decreases v
  {
    var inner := indent + "  ";
    match v
    case JArr(items) =>
      forall i | 0 <= i < |items|
        ensures BreaksIndented(Stringify(items[i], inner), inner)
      {
        StringifyIndented(items[i], inner);
      }
      ArrayIndented(items, indent);
    case JObj(ms) =>
      forall i | 0 <= i < |ms|
        ensures BreaksIndented(Stringify(ms[i].value, inner), inner)
      {
        StringifyIndented(ms[i].value, inner);
      }
      ObjectIndented(ms, indent);
    case _ =>
  }

  /** The element separator ",\n" followed by the inner indentation. */
  lemma SeparatorIndented(indent: string)
    requires '\n' !in indent
    ensures var sep := ",\n" + (indent + "  ");
      sep != [] && sep[|sep| - 1] != '\n' && BreaksIndented(sep, indent + "  ")
  {
    var inner := indent + "  ";
    OneBreak(",", inner, inner);
    assert "," + "\n" + inner == ",\n" + inner;
  }

  lemma ArrayIndented(items: seq<Json>, indent: string)
    requires '\n' !in indent
    requires forall i :: 0 <= i < |items| ==> BreaksIndented(Stringify(items[i], indent + "  "), indent + "  ")
    ensures BreaksIndented(Stringify(JArr(items), indent), indent)
  {
    if items != [] {
      var inner := indent + "  ";
      var sep := ",\n" + inner;
      var parts := seq(|items|, i requires 0 <= i < |items| => Stringify(items[i], inner));
      SeparatorIndented(indent);
      JoinIndented(parts, sep, inner);
      ContainerIndented('[', Join(parts, sep), indent, ']');
    }
  }

  lemma ObjectIndented(ms: seq<Member>, indent: string)
    requires '\n' !in indent
    requires forall i :: 0 <= i < |ms| ==> BreaksIndented(Stringify(ms[i].value, indent + "  "), indent + "  ")
    ensures BreaksIndented(Stringify(JObj(ms), indent), indent)
  {
    if ms != [] {
      var inner := indent + "  ";
      var sep := ",\n" + inner;
      var parts := seq(|ms|, i requires 0 <= i < |ms| => Quote(ms[i].key) + ": " + Stringify(ms[i].value, inner));
      forall i | 0 <= i < |parts|
        ensures parts[i] != [] && parts[i][|parts[i]| - 1] != '\n' && BreaksIndented(parts[i], inner)
      {
        MemberIndented(ms[i], inner);
      }
      SeparatorIndented(indent);
      JoinIndented(parts, sep, inner);
      ContainerIndented('{', Join(parts, sep), indent, '}');
    }
  }

  lemma MemberIndented(m: Member, inner: string)
    requires BreaksIndented(Stringify(m.value, inner), inner)
    ensures var t := Quote(m.key) + ": " + Stringify(m.value, inner);
      t != [] && t[|t| - 1] != '\n' && BreaksIndented(t, inner)
  {
    var prefix := Quote(m.key) + ": ";
    assert '\n' !in prefix;
    BreaksIndentedConcat(prefix, Stringify(m.value, inner), inner);
  }

  /** The text is one line exactly for null, booleans, numbers, strings and empty arrays and objects. */
  lemma StringifyOneLine(v: Json, indent: string)
    ensures '\n' !in Stringify(v, indent) <==> !(v.JArr? && v.items != []) && !(v.JObj? && v.members != [])
  {
    if (v.JArr? && v.items != []) || (v.JObj? && v.members != []) {
      assert Stringify(v, indent)[1] == '\n';
    }
  }
}
