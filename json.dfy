/**
 * JSON values as JSON.parse builds them and JSON.stringify (without a
 * replacer or indentation) writes them.
 *
 * An object is the sequence of its own properties in the order a JavaScript
 * object enumerates them: keys that are array indices first, in ascending
 * numeric order, then the other keys in the order they were first defined.
 * JSON.parse defines the members of an object literal one after the other,
 * so a repeated key keeps its first position and takes its last value.
 */
module Json {
  import opened Wrappers
  import opened JsonLexical

  datatype Value =
    | Null
    | Bool(b: bool)
    | Number(n: int)
    | String(s: string)
    | Array(items: seq<Value>)
    | Object(members: seq<Member>)

  datatype Member = Member(key: string, value: Value)

  // ---------------------------------------------------------------------
  // Property order.

  /** The largest array index, 2^32 - 2. */
  const MaxArrayIndex: int := 4294967294

  /** A key that is the canonical decimal text of an array index. */
  predicate IsArrayIndex(key: string)
  {
    Canonical(key) && DigitsValue(key) <= MaxArrayIndex
  }

  /** A property keyed a may be listed before one keyed b. */
  predicate ListedBefore(a: string, b: string)
  {
    a != b && (IsArrayIndex(b) ==> IsArrayIndex(a) && DigitsValue(a) < DigitsValue(b))
  }

  /** Distinct keys, in JavaScript's enumeration order. */
  predicate Normal(ms: seq<Member>)
  {
    forall i, j | 0 <= i < j < |ms| :: ListedBefore(ms[i].key, ms[j].key)
  }

  /** The position of key among the members, if it is there. */
  function Find(ms: seq<Member>, key: string): (r: Option<nat>)
    ensures r.Some? ==> r.value < |ms| && ms[r.value].key == key
    ensures r.None? <==> forall i | 0 <= i < |ms| :: ms[i].key != key
  {
    if ms == [] then None
    else if ms[0].key == key then Some(0)
    else match Find(ms[1..], key)
      case None => None
      case Some(i) => Some(i + 1)
  }

  /** The value of property key, if defined. */
  function Lookup(ms: seq<Member>, key: string): Option<Value>
  {
    match Find(ms, key)
    case None => None
    case Some(i) => Some(ms[i].value)
  }

  /** Where a new array-index key k goes: after every index key below k. */
  function Slot(ms: seq<Member>, k: nat): (p: nat)
    ensures p <= |ms|
    ensures forall i | 0 <= i < p :: IsArrayIndex(ms[i].key) && DigitsValue(ms[i].key) < k
    ensures p < |ms| ==> !(IsArrayIndex(ms[p].key) && DigitsValue(ms[p].key) < k)
  {
    if ms != [] && IsArrayIndex(ms[0].key) && DigitsValue(ms[0].key) < k then 1 + Slot(ms[1..], k)
    else 0
  }

  /** Defines one property, as JSON.parse does for each member it reads. */
  function Define(ms: seq<Member>, m: Member): seq<Member>
  {
    match Find(ms, m.key)
    case Some(i) => ms[i := m]
    case None =>
      if IsArrayIndex(m.key) then
        var p := Slot(ms, DigitsValue(m.key));
        ms[..p] + [m] + ms[p..]
      else ms + [m]
  }

  /** Defines the members of an object literal in the order they are written. */
  function DefineAll(ms: seq<Member>, written: seq<Member>): seq<Member>
    decreases |written|
  {
    if written == [] then ms else DefineAll(Define(ms, written[0]), written[1..])
  }

  // ---------------------------------------------------------------------
  // Properties of Define.

  /** Past Slot, every key is one a new index key k may be listed before. */
  lemma SlotBound(ms: seq<Member>, key: string)
    requires Normal(ms) && IsArrayIndex(key) && Find(ms, key).None?
    ensures forall j | Slot(ms, DigitsValue(key)) <= j < |ms| :: ListedBefore(key, ms[j].key)
  {
    var k := DigitsValue(key);
    var p := Slot(ms, k);
    forall j | p <= j < |ms|
      ensures ListedBefore(key, ms[j].key)
    {
      if IsArrayIndex(ms[j].key) {
        assert IsArrayIndex(ms[p].key) && DigitsValue(ms[p].key) <= DigitsValue(ms[j].key) by {
          if p < j {
            assert ListedBefore(ms[p].key, ms[j].key);
          }
        }
        if DigitsValue(ms[j].key) == k {
          CanonicalInjective(ms[j].key, key);
        }
      }
    }
  }

  /**
   * r is ms with m defined: it holds m, it keeps every member of ms under
   * another key, and it holds nothing else.
   */
  predicate Defines(ms: seq<Member>, m: Member, r: seq<Member>)
  {
    && m in r
    && (forall x | x in ms && x.key != m.key :: x in r)
    && (forall x | x in r :: x == m || (x in ms && x.key != m.key))
  }

  /** A repeated key keeps its position and takes the new value. */
  lemma DefineExisting(ms: seq<Member>, m: Member, i: nat)
    requires Normal(ms) && Find(ms, m.key) == Some(i)
    ensures Define(ms, m) == ms[i := m]
    ensures Normal(Define(ms, m)) && Defines(ms, m, Define(ms, m))
  {
    var r := ms[i := m];
    assert Define(ms, m) == r;
    assert r[i] == m;
    forall x | x in r ensures x == m || (x in ms && x.key != m.key) {
      var j :| 0 <= j < |r| && r[j] == x;
      if j != i {
        assert ms[j] == x;
        assert i < j ==> ListedBefore(ms[i].key, ms[j].key);
        assert j < i ==> ListedBefore(ms[j].key, ms[i].key);
      }
    }
    forall x | x in ms && x.key != m.key ensures x in r {
      var j :| 0 <= j < |ms| && ms[j] == x;
      assert r[j] == x;
    }
    forall a, b | 0 <= a < b < |r| ensures ListedBefore(r[a].key, r[b].key) {
      assert r[a].key == ms[a].key && r[b].key == ms[b].key;
    }
  }

  /** Before Slot, every key is one a new index key may be listed after. */
  lemma BelowSlot(ms: seq<Member>, m: Member)
    requires IsArrayIndex(m.key) && Find(ms, m.key).None?
    ensures forall i | 0 <= i < Slot(ms, DigitsValue(m.key)) :: ListedBefore(ms[i].key, m.key)
  {
  }

  /** The positions in a sequence after an insertion. */
  lemma InsertAt<T>(s: seq<T>, p: nat, x: T)
    requires p <= |s|
    ensures |s[..p] + [x] + s[p..]| == |s| + 1
    ensures (s[..p] + [x] + s[p..])[p] == x
    ensures forall k | 0 <= k < p :: (s[..p] + [x] + s[p..])[k] == s[k]
    ensures forall k | p < k <= |s| :: (s[..p] + [x] + s[p..])[k] == s[k - 1]
  {
  }

  lemma DefineIndexOrder(ms: seq<Member>, m: Member)
    requires Normal(ms) && IsArrayIndex(m.key) && Find(ms, m.key).None?
    ensures Normal(Define(ms, m))
  {
    var p := Slot(ms, DigitsValue(m.key));
    var r := ms[..p] + [m] + ms[p..];
    assert Define(ms, m) == r;
    InsertAt(ms, p, m);
    SlotBound(ms, m.key);
    BelowSlot(ms, m);
    forall i, j | 0 <= i < j < |r|
      ensures ListedBefore(r[i].key, r[j].key)
    {
      if i == p {
        assert r[j] == ms[j - 1];
      } else if j == p {
        assert r[i] == ms[i];
      } else if j < p {
        assert r[i] == ms[i] && r[j] == ms[j];
      } else if i < p {
        assert r[i] == ms[i] && r[j] == ms[j - 1];
      } else {
        assert r[i] == ms[i - 1] && r[j] == ms[j - 1];
      }
    }
  }

  lemma InsertedMembers(ms: seq<Member>, p: nat, m: Member)
    requires p <= |ms|
    ensures multiset(ms[..p] + [m] + ms[p..]) == multiset(ms) + multiset{m}
  {
    assert ms == ms[..p] + ms[p..];
  }

  /** A new array-index key is inserted at its slot; every other member keeps its relative order. */
  lemma DefineIndex(ms: seq<Member>, m: Member)
    requires Normal(ms) && IsArrayIndex(m.key) && Find(ms, m.key).None?
    ensures var p := Slot(ms, DigitsValue(m.key)); Define(ms, m) == ms[..p] + [m] + ms[p..]
    ensures Normal(Define(ms, m)) && Defines(ms, m, Define(ms, m))
  {
    DefineIndexOrder(ms, m);
    InsertedMembers(ms, Slot(ms, DigitsValue(m.key)), m);
    var r := Define(ms, m);
    forall x | x in r ensures x == m || (x in ms && x.key != m.key) {
      assert x in multiset(r);
    }
  }

  /** A new key that is no array index goes last. */
  lemma DefineOther(ms: seq<Member>, m: Member)
    requires Normal(ms) && !IsArrayIndex(m.key) && Find(ms, m.key).None?
    ensures Define(ms, m) == ms + [m]
    ensures Normal(Define(ms, m)) && Defines(ms, m, Define(ms, m))
  {
    var r := ms + [m];
    assert Define(ms, m) == r;
    assert r[|ms|] == m;
    forall i, j | 0 <= i < j < |r| ensures ListedBefore(r[i].key, r[j].key) {
      if j < |ms| { assert r[i] == ms[i] && r[j] == ms[j]; }
    }
  }

  /** Defining a property keeps the members in enumeration order, and defines exactly that property. */
  lemma DefineNormal(ms: seq<Member>, m: Member)
    requires Normal(ms)
    ensures Normal(Define(ms, m)) && Defines(ms, m, Define(ms, m))
  {
    match Find(ms, m.key)
    case Some(i) => DefineExisting(ms, m, i);
    case None => if IsArrayIndex(m.key) { DefineIndex(ms, m); } else { DefineOther(ms, m); }
  }

  /** Defining written members one by one keeps the order, and every member comes from the inputs. */
  lemma {:induction false} DefineAllNormal(ms: seq<Member>, written: seq<Member>)
    requires Normal(ms)
    ensures Normal(DefineAll(ms, written))
    ensures forall x | x in DefineAll(ms, written) :: x in ms || x in written
    decreases |written|
  {
    if written != [] {
      DefineNormal(ms, written[0]);
      DefineAllNormal(Define(ms, written[0]), written[1..]);
    }
  }

  /** The value the last written member with key gives it, if any member has that key. */
  function LastValue(written: seq<Member>, key: string): Option<Value>
  {
    if written == [] then None
    else match LastValue(written[1..], key)
      case Some(v) => Some(v)
      case None => if written[0].key == key then Some(written[0].value) else None
  }

  /** In a list with distinct keys, every member is what its key looks up. */
  lemma LookupMember(ms: seq<Member>, x: Member)
    requires Normal(ms) && x in ms
    ensures Lookup(ms, x.key) == Some(x.value)
  {
    var j :| 0 <= j < |ms| && ms[j] == x;
    var i := Find(ms, x.key).value;
    DistinctKeys(ms, i, j);
  }

  lemma DistinctKeys(ms: seq<Member>, a: nat, b: nat)
    requires Normal(ms) && a < |ms| && b < |ms| && ms[a].key == ms[b].key
    ensures a == b
  {
  }

  /** After defining m, key m.key looks up m's value and every other key what it looked up before. */
  lemma DefineLookup(ms: seq<Member>, m: Member, key: string)
    requires Normal(ms)
    ensures Lookup(Define(ms, m), key) == if key == m.key then Some(m.value) else Lookup(ms, key)
  {
    var r := Define(ms, m);
    DefineNormal(ms, m);
    if key == m.key {
      LookupMember(r, m);
    } else if Lookup(ms, key).Some? {
      var x := ms[Find(ms, key).value];
      LookupMember(r, x);
    } else {
      assert forall x | x in r :: x.key != key;
    }
  }

  /** After defining written members one by one, a key looks up its last written value, or what it looked up before. */
  lemma {:induction false} DefineAllLookup(ms: seq<Member>, written: seq<Member>, key: string)
    requires Normal(ms)
    ensures Lookup(DefineAll(ms, written), key)
         == if LastValue(written, key).Some? then LastValue(written, key) else Lookup(ms, key)
    decreases |written|
  {
    if written != [] {
      DefineNormal(ms, written[0]);
      DefineLookup(ms, written[0], key);
      DefineAllLookup(Define(ms, written[0]), written[1..], key);
    }
  }

  /** In the object JSON.parse builds, a repeated key takes its last value and a key never written is absent. */
  lemma ParsedLookup(written: seq<Member>, key: string)
    ensures Lookup(DefineAll([], written), key) == LastValue(written, key)
  {
    DefineAllLookup([], written, key);
  }

  /** A member that may come last is simply appended. */
  lemma DefineAppends(ms: seq<Member>, m: Member)
    requires Normal(ms + [m])
    ensures Define(ms, m) == ms + [m]
  {
    assert forall i | 0 <= i < |ms| :: ms[i] == (ms + [m])[i];
    assert (ms + [m])[|ms|] == m;
    assert Find(ms, m.key).None? by {
      forall i | 0 <= i < |ms| ensures ms[i].key != m.key {
        assert ListedBefore((ms + [m])[i].key, (ms + [m])[|ms|].key);
      }
    }
    if IsArrayIndex(m.key) {
      var p := Slot(ms, DigitsValue(m.key));
      assert ms[..p] + [m] + ms[p..] == ms + [m];
    }
  }

  /** Members already in enumeration order are defined in place: DefineAll keeps them as written. */
  lemma {:induction false} DefineAllAppends(ms: seq<Member>, written: seq<Member>)
    requires Normal(ms + written)
    ensures DefineAll(ms, written) == ms + written
    decreases |written|
  {
    if written != [] {
      var next := ms + [written[0]];
      assert next + written[1..] == ms + written;
      assert next == (ms + written)[..|next|];
      assert Normal(next) by {
        forall i, j | 0 <= i < j < |next| ensures ListedBefore(next[i].key, next[j].key) {
          assert next[i] == (ms + written)[i] && next[j] == (ms + written)[j];
        }
      }
      DefineAppends(ms, written[0]);
      DefineAllAppends(next, written[1..]);
    }
  }

  // ---------------------------------------------------------------------
  // The values JSON.stringify and JSON.parse agree on.

  /**
   * Exact integers, ASCII strings and keys, and objects whose members are
   * listed as a JavaScript object lists them.
   */
  predicate WellFormed(v: Value)
    decreases v
  {
    match v
    case Null => true
    case Bool(_) => true
    case Number(n) => IsExactInteger(n)
    case String(s) => AsciiText(s)
    case Array(items) => WellFormedItems(items)
    case Object(ms) => Normal(ms) && WellFormedMembers(ms)
  }

  predicate WellFormedItems(items: seq<Value>)
    decreases items
  {
    forall i | 0 <= i < |items| :: WellFormed(items[i])
  }

  predicate WellFormedMembers(ms: seq<Member>)
    decreases ms
  {
    forall i | 0 <= i < |ms| :: WellFormedMember(ms[i])
  }

  predicate WellFormedMember(m: Member)
    decreases m
  {
    AsciiText(m.key) && WellFormed(m.value)
  }

  lemma ConsItems(v: Value, vs: seq<Value>)
    requires WellFormed(v) && WellFormedItems(vs)
    ensures WellFormedItems([v] + vs)
  {
    assert forall i | 1 <= i < |vs| + 1 :: ([v] + vs)[i] == vs[i - 1];
  }

  lemma ConsMembers(m: Member, ms: seq<Member>)
    requires WellFormedMember(m) && WellFormedMembers(ms)
    ensures WellFormedMembers([m] + ms)
  {
    assert forall i | 1 <= i < |ms| + 1 :: ([m] + ms)[i] == ms[i - 1];
  }

  /** The object JSON.parse builds from well-formed members is well formed. */
  lemma DefinedObject(written: seq<Member>)
    requires WellFormedMembers(written)
    ensures WellFormed(Object(DefineAll([], written)))
  {
    var ms := DefineAll([], written);
    DefineAllNormal([], written);
    forall i | 0 <= i < |ms| ensures WellFormedMember(ms[i]) {
      assert ms[i] in ms;
    }
  }

  // ---------------------------------------------------------------------
  // JSON.stringify.

  function Stringify(v: Value): string
    decreases v
  {
    match v
    case Null => "null"
    case Bool(b) => if b then "true" else "false"
    case Number(n) => NumberText(n)
    case String(s) => Quote(s)
    case Array(items) => "[" + ItemsText(items) + "]"
    case Object(ms) => "{" + MembersText(ms) + "}"
  }

  function ItemsText(items: seq<Value>): string
    decreases items
  {
    if items == [] then "" else Stringify(items[0]) + ItemsTail(items[1..])
  }

  /** The items after the first, each preceded by a comma. */
  function ItemsTail(items: seq<Value>): string
    decreases items
  {
    if items == [] then "" else "," + Stringify(items[0]) + ItemsTail(items[1..])
  }

  function MemberText(m: Member): string
    decreases m
  {
    Quote(m.key) + ":" + Stringify(m.value)
  }

  function MembersText(ms: seq<Member>): string
    decreases ms
  {
    if ms == [] then "" else MemberText(ms[0]) + MembersTail(ms[1..])
  }

  function MembersTail(ms: seq<Member>): string
    decreases ms
  {
    if ms == [] then "" else "," + MemberText(ms[0]) + MembersTail(ms[1..])
  }

  // ---------------------------------------------------------------------
  // JSON.parse.

  function Literal(s: string, word: string, v: Value): (r: Parsed<Value>)
    requires word != []
    ensures r.Ok? ==> |r.value.1| < |s|
  {
    if |word| <= |s| && s[..|word|] == word then Ok((v, s[|word|..])) else Err(SyntaxError)
  }

  /** Reads one value at the start of s, which starts after any whitespace. */
  function ParseValue(s: string): (r: Parsed<Value>)
    ensures r.Ok? ==> |r.value.1| < |s| && WellFormed(r.value.0)
    decreases |s|, 0
  {
    if s == [] then Err(SyntaxError)
    else if s[0] == 'n' then Literal(s, "null", Null)
    else if s[0] == 't' then Literal(s, "true", Bool(true))
    else if s[0] == 'f' then Literal(s, "false", Bool(false))
    else if s[0] == '"' then
      var (str, rest) :- ParseChars(s[1..]);
      Ok((String(str), rest))
    else if s[0] == '[' then ParseArray(SkipWhitespace(s[1..]))
    else if s[0] == '{' then ParseObject(SkipWhitespace(s[1..]))
    else if s[0] == '-' || IsDigit(s[0]) then
      var (n, rest) :- ParseNumber(s);
      Ok((Number(n), rest))
    else Err(SyntaxError)
  }

  /** The rest of an array after "[" and whitespace. */
  function ParseArray(t: string): (r: Parsed<Value>)
    ensures r.Ok? ==> |r.value.1| < |t| && WellFormed(r.value.0)
    decreases |t|, 1
  {
    if t != [] && t[0] == ']' then Ok((Array([]), t[1..]))
    else
      var (v, rest) :- ParseValue(t);
      var (vs, rest') :- ParseItemsTail(SkipWhitespace(rest));
      ConsItems(v, vs);
      Ok((Array([v] + vs), rest'))
  }

  /** The items after the first, each after a comma, up to and including "]". */
  function ParseItemsTail(t: string): (r: Parsed<seq<Value>>)
    ensures r.Ok? ==> |r.value.1| < |t|
    ensures r.Ok? ==> WellFormedItems(r.value.0)
    decreases |t|, 1
  {
    if t == [] then Err(SyntaxError)
    else if t[0] == ']' then Ok(([], t[1..]))
    else if t[0] == ',' then
      var (v, rest) :- ParseValue(SkipWhitespace(t[1..]));
      var (vs, rest') :- ParseItemsTail(SkipWhitespace(rest));
      ConsItems(v, vs);
      Ok(([v] + vs, rest'))
    else Err(SyntaxError)
  }

  /** The rest of an object after "{" and whitespace. */
  function ParseObject(t: string): (r: Parsed<Value>)
    ensures r.Ok? ==> |r.value.1| < |t| && WellFormed(r.value.0)
    decreases |t|, 1
  {
    if t != [] && t[0] == '}' then Ok((Object([]), t[1..]))
    else
      var (m, rest) :- ParseMember(t);
      var (ms, rest') :- ParseMembersTail(SkipWhitespace(rest));
      ConsMembers(m, ms);
      DefinedObject([m] + ms);
      Ok((Object(DefineAll([], [m] + ms)), rest'))
  }

  /** One "key": value pair. */
  function ParseMember(t: string): (r: Parsed<Member>)
    ensures r.Ok? ==> |r.value.1| < |t| && WellFormedMember(r.value.0)
    decreases |t|, 0
  {
    if t == [] || t[0] != '"' then Err(SyntaxError)
    else
      var (key, afterKey) :- ParseChars(t[1..]);
      var colon := SkipWhitespace(afterKey);
      if colon == [] || colon[0] != ':' then Err(SyntaxError)
      else
        var (v, rest) :- ParseValue(SkipWhitespace(colon[1..]));
        Ok((Member(key, v), rest))
  }

  /** The members after the first, each after a comma, up to and including "}". */
  function ParseMembersTail(t: string): (r: Parsed<seq<Member>>)
    ensures r.Ok? ==> |r.value.1| < |t|
    ensures r.Ok? ==> WellFormedMembers(r.value.0)
    decreases |t|, 1
  {
    if t == [] then Err(SyntaxError)
    else if t[0] == '}' then Ok(([], t[1..]))
    else if t[0] == ',' then
      var (m, rest) :- ParseMember(SkipWhitespace(t[1..]));
      var (ms, rest') :- ParseMembersTail(SkipWhitespace(rest));
      ConsMembers(m, ms);
      Ok(([m] + ms, rest'))
    else Err(SyntaxError)
  }

  /** JSON.parse: one value, with only whitespace around it. */
  function Parse(text: string): (r: Result<Value, ParseError>)
    ensures r.Ok? ==> WellFormed(r.value)
  {
    var (v, rest) :- ParseValue(SkipWhitespace(text));
    if SkipWhitespace(rest) == [] then Ok(v) else Err(SyntaxError)
  }

  // ---------------------------------------------------------------------
  // JSON.parse reads back what JSON.stringify writes.

  /** The characters a value's text can start with. */
  predicate StartsValue(c: char)
  {
    c == 'n' || c == 't' || c == 'f' || c == '"' || c == '[' || c == '{' || c == '-' || IsDigit(c)
  }

  lemma StringifyStart(v: Value)
    ensures Stringify(v) != [] && StartsValue(Stringify(v)[0])
  {
    if v.Number? {
      var ds := NaturalText(if v.n < 0 then -v.n else v.n);
      assert IsDigit(ds[0]);
    }
  }

  /** What may follow a value inside an array or object, or at the end of a text. */
  predicate Delimits(rest: string)
  {
    rest == [] || rest[0] == ',' || rest[0] == ']' || rest[0] == '}' || IsWhitespace(rest[0])
  }

  lemma ParseLiteral(word: string, v: Value, rest: string)
    requires word != []
    ensures Literal(word + rest, word, v) == Ok((v, rest))
  {
    assert (word + rest)[..|word|] == word;
    assert (word + rest)[|word|..] == rest;
  }

  // One step of the parser each, stated without Stringify.

  lemma OpenBracket(open: char, x: string)
    requires open == '[' || open == '{'
    ensures open == '[' ==> ParseValue([open] + x) == ParseArray(SkipWhitespace(x))
    ensures open == '{' ==> ParseValue([open] + x) == ParseObject(SkipWhitespace(x))
  {
    assert ([open] + x)[1..] == x;
  }

  lemma CloseBracket(rest: string)
    ensures ParseArray("]" + rest) == Ok((Array([]), rest))
    ensures ParseItemsTail("]" + rest) == Ok(([], rest))
    ensures ParseObject("}" + rest) == Ok((Object([]), rest))
    ensures ParseMembersTail("}" + rest) == Ok(([], rest))
  {
    assert ("]" + rest)[1..] == rest;
    assert ("}" + rest)[1..] == rest;
  }

  lemma FirstItem(head: string, tail: string, v: Value, vs: seq<Value>, rest: string)
    requires head != [] && StartsValue(head[0])
    requires ParseValue(head + tail) == Ok((v, tail))
    requires tail != [] && !IsWhitespace(tail[0]) && ParseItemsTail(tail) == Ok((vs, rest))
    ensures ParseArray(SkipWhitespace(head + tail)) == Ok((Array([v] + vs), rest))
  {
    assert (head + tail)[0] == head[0];
    SkipNothing(head + tail);
    SkipNothing(tail);
  }

  lemma NextItem(head: string, tail: string, v: Value, vs: seq<Value>, rest: string)
    requires head != [] && StartsValue(head[0])
    requires ParseValue(head + tail) == Ok((v, tail))
    requires tail != [] && !IsWhitespace(tail[0]) && ParseItemsTail(tail) == Ok((vs, rest))
    ensures ParseItemsTail("," + (head + tail)) == Ok(([v] + vs, rest))
  {
    assert ("," + (head + tail))[1..] == head + tail;
    assert (head + tail)[0] == head[0];
    SkipNothing(head + tail);
    SkipNothing(tail);
  }

  lemma FirstMember(head: string, tail: string, m: Member, ms: seq<Member>, rest: string)
    requires head != [] && head[0] == '"'
    requires ParseMember(head + tail) == Ok((m, tail))
    requires tail != [] && !IsWhitespace(tail[0]) && ParseMembersTail(tail) == Ok((ms, rest))
    ensures ParseObject(SkipWhitespace(head + tail)) == Ok((Object(DefineAll([], [m] + ms)), rest))
  {
    assert (head + tail)[0] == head[0];
    SkipNothing(head + tail);
    SkipNothing(tail);
  }

  lemma NextMember(head: string, tail: string, m: Member, ms: seq<Member>, rest: string)
    requires head != [] && head[0] == '"'
    requires ParseMember(head + tail) == Ok((m, tail))
    requires tail != [] && !IsWhitespace(tail[0]) && ParseMembersTail(tail) == Ok((ms, rest))
    ensures ParseMembersTail("," + (head + tail)) == Ok(([m] + ms, rest))
  {
    assert ("," + (head + tail))[1..] == head + tail;
    assert (head + tail)[0] == head[0];
    SkipNothing(head + tail);
    SkipNothing(tail);
  }

  lemma KeyAndValue(key: string, text: string, v: Value, rest: string)
    requires AsciiText(key) && text != [] && StartsValue(text[0])
    requires ParseValue(text + rest) == Ok((v, rest))
    ensures ParseMember(Quote(key) + (":" + (text + rest))) == Ok((Member(key, v), rest))
  {
    var after := ":" + (text + rest);
    ParseQuoted(key, after);
    SkipNothing(after);
    assert after[1..] == text + rest;
    assert (text + rest)[0] == text[0];
    SkipNothing(text + rest);
  }

  /** Reading the text of a well-formed value gives the value back and leaves what follows it. */
  lemma {:induction false} ParseStringify(v: Value, rest: string)
    requires WellFormed(v) && Delimits(rest)
    ensures ParseValue(Stringify(v) + rest) == Ok((v, rest))
    decreases v
  {
    match v
    case Null => ParseLiteral("null", v, rest);
    case Bool(b) => ParseLiteral(if b then "true" else "false", v, rest);
    case Number(n) =>
      StringifyStart(v);
      ParseNumberText(n, rest);
    case String(str) => ParseQuoted(str, rest);
    case Array(items) =>
      var x := ItemsText(items) + "]" + rest;
      BracketedText(v, rest);
      OpenBracket('[', x);
      ParseArrayText(items, rest);
    case Object(ms) =>
      var x := MembersText(ms) + "}" + rest;
      BracketedText(v, rest);
      OpenBracket('{', x);
      ParseObjectText(ms, rest);
  }

  // The text equations the proofs of reading need, each stated on its own.

  lemma BracketedText(v: Value, rest: string)
    ensures v.Array? ==> Stringify(v) + rest == ['['] + (ItemsText(v.items) + "]" + rest)
    ensures v.Object? ==> Stringify(v) + rest == ['{'] + (MembersText(v.members) + "}" + rest)
  {
  }

  lemma Cons<T>(s: seq<T>)
    requires s != []
    ensures [s[0]] + s[1..] == s
  {
  }

  lemma ItemsTextSplit(items: seq<Value>, rest: string)
    requires items != []
    ensures ItemsText(items) + "]" + rest == Stringify(items[0]) + (ItemsTail(items[1..]) + "]" + rest)
    ensures ItemsTail(items) + "]" + rest == "," + (Stringify(items[0]) + (ItemsTail(items[1..]) + "]" + rest))
  {
  }

  lemma MembersTextSplit(ms: seq<Member>, rest: string)
    requires ms != []
    ensures MembersText(ms) + "}" + rest == MemberText(ms[0]) + (MembersTail(ms[1..]) + "}" + rest)
  {
    assert MembersText(ms) == MemberText(ms[0]) + MembersTail(ms[1..]);
    Regroup(",", MemberText(ms[0]), MembersTail(ms[1..]), "}", rest);
  }

  lemma MembersTailSplit(ms: seq<Member>, rest: string)
    requires ms != []
    ensures MembersTail(ms) + "}" + rest == "," + (MemberText(ms[0]) + (MembersTail(ms[1..]) + "}" + rest))
  {
    assert MembersTail(ms) == "," + MemberText(ms[0]) + MembersTail(ms[1..]);
    Regroup(",", MemberText(ms[0]), MembersTail(ms[1..]), "}", rest);
  }

  lemma Regroup(lead: string, head: string, tail: string, close: string, rest: string)
    ensures lead + head + tail + close + rest == lead + (head + (tail + close + rest))
    ensures head + tail + close + rest == head + (tail + close + rest)
  {
  }

  lemma MemberTextSplit(m: Member, rest: string)
    ensures MemberText(m) + rest == Quote(m.key) + (":" + (Stringify(m.value) + rest))
    ensures MemberText(m) != [] && MemberText(m)[0] == '"'
  {
  }

  lemma {:induction false} ParseArrayText(items: seq<Value>, rest: string)
    requires WellFormedItems(items) && Delimits(rest)
    ensures ParseArray(SkipWhitespace(ItemsText(items) + "]" + rest)) == Ok((Array(items), rest))
    decreases items, 0
  {
    if items == [] {
      assert ItemsText(items) + "]" + rest == "]" + rest;
      SkipNothing("]" + rest);
      CloseBracket(rest);
    } else {
      var head, tail := Stringify(items[0]), ItemsTail(items[1..]) + "]" + rest;
      ItemsTextSplit(items, rest);
      TailWellFormed(items);
      StringifyStart(items[0]);
      ItemsTailStart(items[1..], rest);
      ParseStringify(items[0], tail);
      ParseItemsTailText(items[1..], rest);
      FirstItem(head, tail, items[0], items[1..], rest);
      Cons(items);
    }
  }

  lemma {:induction false} ParseItemsTailText(items: seq<Value>, rest: string)
    requires WellFormedItems(items) && Delimits(rest)
    ensures ParseItemsTail(ItemsTail(items) + "]" + rest) == Ok((items, rest))
    decreases items, 1
  {
    if items == [] {
      assert ItemsTail(items) + "]" + rest == "]" + rest;
      CloseBracket(rest);
    } else {
      var head, tail := Stringify(items[0]), ItemsTail(items[1..]) + "]" + rest;
      ItemsTextSplit(items, rest);
      TailWellFormed(items);
      StringifyStart(items[0]);
      ItemsTailStart(items[1..], rest);
      ParseStringify(items[0], tail);
      ParseItemsTailText(items[1..], rest);
      NextItem(head, tail, items[0], items[1..], rest);
      Cons(items);
    }
  }

  lemma ItemsTailStart(items: seq<Value>, rest: string)
    ensures ItemsTail(items) + "]" + rest != []
    ensures (ItemsTail(items) + "]" + rest)[0] == (if items == [] then ']' else ',')
    ensures Delimits(ItemsTail(items) + "]" + rest) && !IsWhitespace((ItemsTail(items) + "]" + rest)[0])
  {
  }

  lemma MembersTailStart(ms: seq<Member>, rest: string)
    ensures MembersTail(ms) + "}" + rest != []
    ensures (MembersTail(ms) + "}" + rest)[0] == (if ms == [] then '}' else ',')
    ensures Delimits(MembersTail(ms) + "}" + rest) && !IsWhitespace((MembersTail(ms) + "}" + rest)[0])
  {
  }

  /** Members already in JavaScript order are defined in place. */
  lemma NormalDefined(ms: seq<Member>)
    requires Normal(ms)
    ensures DefineAll([], ms) == ms
  {
    assert [] + ms == ms;
    DefineAllAppends([], ms);
  }

  lemma {:induction false} ParseObjectText(ms: seq<Member>, rest: string)
    requires Normal(ms) && WellFormedMembers(ms) && Delimits(rest)
    ensures ParseObject(SkipWhitespace(MembersText(ms) + "}" + rest)) == Ok((Object(ms), rest))
    decreases ms, 0
  {
    if ms == [] {
      assert MembersText(ms) + "}" + rest == "}" + rest;
      SkipNothing("}" + rest);
      CloseBracket(rest);
    } else {
      var head, tail := MemberText(ms[0]), MembersTail(ms[1..]) + "}" + rest;
      MembersTextSplit(ms, rest);
      TailMembersWellFormed(ms);
      MembersTailStart(ms[1..], rest);
      ParseMemberText(ms[0], tail);
      ParseMembersTailText(ms[1..], rest);
      FirstMember(head, tail, ms[0], ms[1..], rest);
      Cons(ms);
      NormalDefined(ms);
    }
  }

  lemma {:induction false} ParseMembersTailText(ms: seq<Member>, rest: string)
    requires WellFormedMembers(ms) && Delimits(rest)
    ensures ParseMembersTail(MembersTail(ms) + "}" + rest) == Ok((ms, rest))
    decreases ms, 1
  {
    if ms == [] {
      assert MembersTail(ms) + "}" + rest == "}" + rest;
      CloseBracket(rest);
    } else {
      var head, tail := MemberText(ms[0]), MembersTail(ms[1..]) + "}" + rest;
      MembersTailSplit(ms, rest);
      TailMembersWellFormed(ms);
      MembersTailStart(ms[1..], rest);
      ParseMemberText(ms[0], tail);
      ParseMembersTailText(ms[1..], rest);
      NextMember(head, tail, ms[0], ms[1..], rest);
      Cons(ms);
    }
  }

  lemma {:induction false} ParseMemberText(m: Member, rest: string)
    requires WellFormedMember(m) && Delimits(rest)
    ensures MemberText(m) != [] && MemberText(m)[0] == '"'
    ensures ParseMember(MemberText(m) + rest) == Ok((m, rest))
    decreases m
  {
    var text := Stringify(m.value);
    MemberTextSplit(m, rest);
    StringifyStart(m.value);
    ParseStringify(m.value, rest);
    KeyAndValue(m.key, text, m.value, rest);
  }

  lemma ParseWhole(text: string, v: Value, ws: string)
    requires text != [] && StartsValue(text[0]) && AllWhitespace(ws)
    requires ParseValue(text + ws) == Ok((v, ws))
    ensures Parse(text + ws) == Ok(v)
  {
    assert (text + ws)[0] == text[0];
    SkipNothing(text + ws);
    SkipLeadingWhitespace(ws, []);
    assert ws + [] == ws;
  }

  /** JSON.parse of the text JSON.stringify writes, with any whitespace after it, is the value itself. */
  lemma ParseOfStringify(v: Value, ws: string)
    requires WellFormed(v) && AllWhitespace(ws)
    ensures Parse(Stringify(v) + ws) == Ok(v)
  {
    StringifyStart(v);
    ParseStringify(v, ws);
    ParseWhole(Stringify(v), v, ws);
  }

  // ---------------------------------------------------------------------
  // JSON.stringify writes one line of ASCII text.

  lemma {:induction false} StringifyShape(v: Value)
    ensures '\n' !in Stringify(v)
    ensures WellFormed(v) ==> AsciiText(Stringify(v))
    decreases v
  {
    match v
    case Null =>
      assert forall i | 0 <= i < 4 :: IsAscii("null"[i]);
    case Bool(b) =>
      assert forall i | 0 <= i < 4 :: IsAscii("true"[i]);
      assert forall i | 0 <= i < 5 :: IsAscii("false"[i]);
    case Number(n) => NumberTextShape(n);
    case String(str) =>
      EscapeShape(str);
      Concat("\"", Escape(str));
      Concat("\"" + Escape(str), "\"");
    case Array(items) =>
      ItemsTextShape(items);
      Concat("[", ItemsText(items));
      Concat("[" + ItemsText(items), "]");
    case Object(ms) =>
      MembersTextShape(ms);
      Concat("{", MembersText(ms));
      Concat("{" + MembersText(ms), "}");
  }

  lemma {:induction false} ItemsTextShape(items: seq<Value>)
    ensures '\n' !in ItemsText(items)
    ensures WellFormedItems(items) ==> AsciiText(ItemsText(items))
    decreases items, 0
  {
    if items != [] {
      StringifyShape(items[0]);
      ItemsTailShape(items[1..]);
      Concat(Stringify(items[0]), ItemsTail(items[1..]));
      TailWellFormed(items);
    }
  }

  lemma {:induction false} ItemsTailShape(items: seq<Value>)
    ensures '\n' !in ItemsTail(items)
    ensures WellFormedItems(items) ==> AsciiText(ItemsTail(items))
    decreases items, 1
  {
    if items != [] {
      StringifyShape(items[0]);
      ItemsTailShape(items[1..]);
      Concat(",", Stringify(items[0]));
      Concat("," + Stringify(items[0]), ItemsTail(items[1..]));
      TailWellFormed(items);
    }
  }

  lemma TailWellFormed(items: seq<Value>)
    requires items != []
    ensures WellFormedItems(items) ==> WellFormed(items[0]) && WellFormedItems(items[1..])
  {
    if WellFormedItems(items) {
      assert forall i | 0 <= i < |items| - 1 :: items[1..][i] == items[i + 1];
    }
  }

  lemma TailMembersWellFormed(ms: seq<Member>)
    requires ms != []
    ensures WellFormedMembers(ms) ==> WellFormedMember(ms[0]) && WellFormedMembers(ms[1..])
  {
    if WellFormedMembers(ms) {
      assert forall i | 0 <= i < |ms| - 1 :: ms[1..][i] == ms[i + 1];
    }
  }

  lemma {:induction false} MemberShape(m: Member)
    ensures '\n' !in MemberText(m)
    ensures WellFormedMember(m) ==> AsciiText(MemberText(m))
    decreases m
  {
    StringifyShape(m.value);
    EscapeShape(m.key);
    Concat("\"", Escape(m.key));
    Concat("\"" + Escape(m.key), "\"");
    Concat(Quote(m.key), ":");
    Concat(Quote(m.key) + ":", Stringify(m.value));
  }

  lemma {:induction false} MembersTextShape(ms: seq<Member>)
    ensures '\n' !in MembersText(ms)
    ensures WellFormedMembers(ms) ==> AsciiText(MembersText(ms))
    decreases ms, 0
  {
    if ms != [] {
      MemberShape(ms[0]);
      MembersTailShape(ms[1..]);
      Concat(MemberText(ms[0]), MembersTail(ms[1..]));
      TailMembersWellFormed(ms);
    }
  }

  lemma {:induction false} MembersTailShape(ms: seq<Member>)
    ensures '\n' !in MembersTail(ms)
    ensures WellFormedMembers(ms) ==> AsciiText(MembersTail(ms))
    decreases ms, 1
  {
    if ms != [] {
      MemberShape(ms[0]);
      MembersTailShape(ms[1..]);
      Concat(",", MemberText(ms[0]));
      Concat("," + MemberText(ms[0]), MembersTail(ms[1..]));
      TailMembersWellFormed(ms);
    }
  }
}
