/**
 * `JSON.stringify` (section 25.5.2 of ECMA-262) on the values the ledger and the server
 * serialise: null, booleans, finite numbers (kept as the text JavaScript prints for them),
 * strings, arrays and objects whose members keep their insertion order. A replacer array
 * becomes the PropertyList, which chooses and orders the members of EVERY object, nested ones
 * included; a non-empty gap switches on the indented layout.
 */
module Json {
  import opened Common
  import opened JsText
  import KeySort

  datatype Value =
    | Null
    | Bool(b: bool)
    | Num(text: string)
    | Str(s: string)
    | Arr(items: seq<Value>)
    | Obj(members: seq<Member>)

  datatype Member = Member(key: string, value: Value)

  /** `Object.keys` of an object: its member names in insertion order. */
  function KeysOf(ms: seq<Member>): seq<string> {
    seq(|ms|, i requires 0 <= i < |ms| => ms[i].key)
  }

  lemma KeysOfAppend(a: seq<Member>, b: seq<Member>)
    ensures KeysOf(a + b) == KeysOf(a) + KeysOf(b)
  {
  }

  /** No two members share a name, as in any JavaScript object. */
  predicate UniqueKeys(ms: seq<Member>) {
    forall i, j :: 0 <= i < j < |ms| ==> ms[i].key != ms[j].key
  }

  /** The property `k` of an object, if it has one. */
  function Lookup(ms: seq<Member>, k: string): (r: Option<Value>)
    ensures r.Some? <==> k in KeysOf(ms)
    ensures r.Some? ==> Member(k, r.value) in ms
  {
    if ms == [] then None
    else if ms[0].key == k then
      assert KeysOf(ms)[0] == k;
      Some(ms[0].value)
    else
      assert KeysOf(ms) == [ms[0].key] + KeysOf(ms[1..]);
      Lookup(ms[1..], k)
  }

  /** The members a PropertyList selects, in PropertyList order; names the object lacks are
      skipped (SerializeJSONObject, step 5 onwards). */
  function Select(ms: seq<Member>, keys: seq<string>): (r: seq<Member>)
    ensures forall i :: 0 <= i < |r| ==> r[i] in ms
    ensures |r| <= |keys|
  {
    if keys == [] then [] else Picked(ms, keys[0]) + Select(ms, keys[1..])
  }

  /** The member named `k`, if the object has one. */
  function Picked(ms: seq<Member>, k: string): (r: seq<Member>)
    ensures |r| <= 1 && forall i :: 0 <= i < |r| ==> r[i] in ms
  {
    match Lookup(ms, k)
    case Some(v) => [Member(k, v)]
    case None => []
  }

  /** `const { [k]: _, ...rest } = object`: the members other than `k`, in order. */
  function DropKey(ms: seq<Member>, k: string): (r: seq<Member>)
    ensures k !in KeysOf(r)
    ensures |r| <= |ms|
  {
    if ms == [] then []
    else
      var head := if ms[0].key == k then [] else [ms[0]];
      KeysOfAppend(head, DropKey(ms[1..], k));
      head + DropKey(ms[1..], k)
  }

  /** Dropping `k` leaves every other property read as it was. */
  lemma {:induction false} DropKeyKeepsOthers(ms: seq<Member>, k: string)
    ensures forall j :: j != k ==> Lookup(DropKey(ms, k), j) == Lookup(ms, j)
  {
    if ms != [] {
      DropKeyKeepsOthers(ms[1..], k);
      var rest := DropKey(ms[1..], k);
      if ms[0].key != k {
        assert ([ms[0]] + rest)[0] == ms[0];
        assert ([ms[0]] + rest)[1..] == rest;
      } else {
        assert [] + rest == rest;
      }
    }
  }

  lemma {:induction false} DropKeyAppend(a: seq<Member>, b: seq<Member>, k: string)
    ensures DropKey(a + b, k) == DropKey(a, k) + DropKey(b, k)
  {
    if a == [] {
      assert a + b == b;
    } else {
      assert (a + b)[1..] == a[1..] + b;
      DropKeyAppend(a[1..], b, k);
    }
  }

  lemma {:induction false} DropAbsentKey(ms: seq<Member>, k: string)
    requires k !in KeysOf(ms)
    ensures DropKey(ms, k) == ms
  {
    if ms != [] {
      assert KeysOf(ms) == [ms[0].key] + KeysOf(ms[1..]);
      DropAbsentKey(ms[1..], k);
    }
  }

  function HexDigit(d: nat): char
    requires d < 16
  {
    "0123456789abcdef"[d]
  }

  /** One character of QuoteJSONString (section 25.5.2.3 of ECMA-262). */
  function EscapeChar(c: char): string {
    if c == '\U{8}' then "\\b"
    else if c == '\t' then "\\t"
    else if c == '\n' then "\\n"
    else if c == '\U{C}' then "\\f"
    else if c == '\r' then "\\r"
    else if c == '"' then "\\\""
    else if c == '\\' then "\\\\"
    else if c < ' ' then "\\u00" + [HexDigit(c as int / 16), HexDigit(c as int % 16)]
    else [c]
  }

  function Escaped(s: string): string {
    if s == [] then [] else EscapeChar(s[0]) + Escaped(s[1..])
  }

  /** QuoteJSONString. */
  function Quote(s: string): string {
    "\"" + Escaped(s) + "\""
  }

  /** The element texts joined by `sep` (`Array.prototype.join`). */
  function Join(sep: string, parts: seq<string>): string {
    if parts == [] then ""
    else if |parts| == 1 then parts[0]
    else parts[0] + sep + Join(sep, parts[1..])
  }

  /** The bracketing step shared by SerializeJSONObject and SerializeJSONArray. */
  function Wrap(open: string, close: string, parts: seq<string>, gap: string, indent: string): string {
    if parts == [] then open + close
    else if gap == "" then open + Join(",", parts) + close
    else
      var inner := indent + gap;
      open + "\n" + inner + Join(",\n" + inner, parts) + "\n" + indent + close
  }

  /** SerializeJSONProperty for a value that is present. */
  function Serialize(v: Value, propertyList: Option<seq<string>>, gap: string, indent: string): (r: string)
    ensures v.Obj? ==> |r| >= 2 && r[0] == '{' && r[|r| - 1] == '}'
    ensures v.Arr? ==> |r| >= 2 && r[0] == '[' && r[|r| - 1] == ']'
    ensures v.Str? ==> |r| >= 2 && r[0] == '"' && r[|r| - 1] == '"'
  {
    match v
    case Null => "null"
    case Bool(b) => if b then "true" else "false"
    case Num(t) => t
    case Str(s) => Quote(s)
    case Arr(items) =>
      var parts := seq(|items|, i requires 0 <= i < |items| => Serialize(items[i], propertyList, gap, indent + gap));
      Wrap("[", "]", parts, gap, indent)
    case Obj(ms) =>
      var sel := Select(ms, if propertyList.Some? then propertyList.value else KeysOf(ms));
      var parts := seq(|sel|, i requires 0 <= i < |sel| => MemberText(sel[i].key, Serialize(sel[i].value, propertyList, gap, indent + gap), gap));
      Wrap("{", "}", parts, gap, indent)
  }

  /** `"key":value`, with a space after the colon when there is a gap. */
  function MemberText(key: string, valueText: string, gap: string): string {
    Quote(key) + ":" + (if gap == "" then "" else " ") + valueText
  }

  /** JSON.stringify(v, propertyList, gap) at the top level. */
  function Stringify(v: Value, propertyList: Option<seq<string>>, gap: string): (r: string)
    ensures v.Obj? ==> |r| >= 2 && r[0] == '{' && r[|r| - 1] == '}'
    ensures v.Arr? ==> |r| >= 2 && r[0] == '[' && r[|r| - 1] == ']'
  {
    Serialize(v, propertyList, gap, "")
  }

  /** `k` names a member of some object inside `v`. */
  predicate Mentions(v: Value, k: string) {
    match v
    case Arr(items) => exists i :: 0 <= i < |items| && Mentions(items[i], k)
    case Obj(ms) => exists i :: 0 <= i < |ms| && (ms[i].key == k || Mentions(ms[i].value, k))
    case _ => false
  }

  lemma {:induction false} SelectAppend(ms: seq<Member>, a: seq<string>, b: seq<string>)
    ensures Select(ms, a + b) == Select(ms, a) + Select(ms, b)
  {
    if a == [] {
      assert a + b == b;
    } else {
      assert (a + b)[1..] == a[1..] + b;
      SelectAppend(ms, a[1..], b);
      Assoc(Picked(ms, a[0]), Select(ms, a[1..]), Select(ms, b));
    }
  }

  lemma Assoc<T>(x: seq<T>, y: seq<T>, z: seq<T>)
    ensures x + (y + z) == x + y + z
  {
  }

  /** Removing from the PropertyList a name the object lacks selects the same members. */
  lemma {:induction false} SelectWithoutAbsent(ms: seq<Member>, keys: seq<string>, k: string)
    requires k !in KeysOf(ms)
    ensures Select(ms, KeySort.Without(keys, k)) == Select(ms, keys)
  {
    if keys != [] {
      SelectWithoutAbsent(ms, keys[1..], k);
      assert KeySort.Without(keys, k) == (if keys[0] == k then [] else [keys[0]]) + KeySort.Without(keys[1..], k);
      SelectAppend(ms, if keys[0] == k then [] else [keys[0]], KeySort.Without(keys[1..], k));
    }
  }

  /** A name that occurs nowhere in `v` can be taken out of the PropertyList without changing
      the text. */
  lemma {:induction false} SerializeWithoutAbsent(v: Value, keys: seq<string>, k: string, gap: string, indent: string)
    requires !Mentions(v, k)
    ensures Serialize(v, Some(KeySort.Without(keys, k)), gap, indent) == Serialize(v, Some(keys), gap, indent)
    decreases v
  {
    var pl, pl' := Some(keys), Some(KeySort.Without(keys, k));
    match v
    case Arr(items) =>
      forall i | 0 <= i < |items|
        ensures Serialize(items[i], pl', gap, indent + gap) == Serialize(items[i], pl, gap, indent + gap)
      {
        SerializeWithoutAbsent(items[i], keys, k, gap, indent + gap);
      }
      ArrayTextsAgree(items, pl', pl, gap, indent);
    case Obj(ms) =>
      assert k !in KeysOf(ms);
      SelectWithoutAbsent(ms, keys, k);
      var sel := Select(ms, keys);
      forall i | 0 <= i < |sel|
        ensures Serialize(sel[i].value, pl', gap, indent + gap) == Serialize(sel[i].value, pl, gap, indent + gap)
      {
        var j :| 0 <= j < |ms| && ms[j] == sel[i];
        SerializeWithoutAbsent(sel[i].value, keys, k, gap, indent + gap);
      }
      PartsAgree(sel, pl', pl, gap, indent);
      ObjectParts(ms, keys, gap, indent);
      ObjectParts(ms, pl'.value, gap, indent);
    case _ =>
  }

  /** Arrays whose elements print alike under two PropertyLists print alike. */
  lemma ArrayTextsAgree(items: seq<Value>, pl1: Option<seq<string>>, pl2: Option<seq<string>>, gap: string, indent: string)
    requires forall i :: 0 <= i < |items| ==> Serialize(items[i], pl1, gap, indent + gap) == Serialize(items[i], pl2, gap, indent + gap)
    ensures Serialize(Arr(items), pl1, gap, indent) == Serialize(Arr(items), pl2, gap, indent)
  {
    assert seq(|items|, i requires 0 <= i < |items| => Serialize(items[i], pl1, gap, indent + gap))
        == seq(|items|, i requires 0 <= i < |items| => Serialize(items[i], pl2, gap, indent + gap));
  }

  /** Members whose values print alike under two PropertyLists give the same member texts. */
  lemma PartsAgree(sel: seq<Member>, pl1: Option<seq<string>>, pl2: Option<seq<string>>, gap: string, indent: string)
    requires forall i :: 0 <= i < |sel| ==> Serialize(sel[i].value, pl1, gap, indent + gap) == Serialize(sel[i].value, pl2, gap, indent + gap)
    ensures Parts(sel, pl1, gap, indent) == Parts(sel, pl2, gap, indent)
  {
  }

  /** Two objects whose members agree name by name, with values that print the same. */
  predicate Alike(ms1: seq<Member>, ms2: seq<Member>, propertyList: Option<seq<string>>, gap: string, indent: string) {
    |ms1| == |ms2| &&
    forall i :: 0 <= i < |ms1| ==>
      ms1[i].key == ms2[i].key &&
      Serialize(ms1[i].value, propertyList, gap, indent) == Serialize(ms2[i].value, propertyList, gap, indent)
  }

  lemma {:induction false} LookupAlike(ms1: seq<Member>, ms2: seq<Member>, k: string, pl: Option<seq<string>>, gap: string, indent: string)
    requires Alike(ms1, ms2, pl, gap, indent)
    ensures Lookup(ms1, k).Some? == Lookup(ms2, k).Some?
    ensures Lookup(ms1, k).Some? ==>
      Serialize(Lookup(ms1, k).value, pl, gap, indent) == Serialize(Lookup(ms2, k).value, pl, gap, indent)
  {
    if ms1 != [] && ms1[0].key != k {
      LookupAlike(ms1[1..], ms2[1..], k, pl, gap, indent);
    }
  }

  lemma {:induction false} SelectAlike(ms1: seq<Member>, ms2: seq<Member>, keys: seq<string>, pl: Option<seq<string>>, gap: string, indent: string)
    requires Alike(ms1, ms2, pl, gap, indent)
    ensures Alike(Select(ms1, keys), Select(ms2, keys), pl, gap, indent)
  {
    if keys != [] {
      LookupAlike(ms1, ms2, keys[0], pl, gap, indent);
      SelectAlike(ms1, ms2, keys[1..], pl, gap, indent);
      AlikeAppend(Picked(ms1, keys[0]), Picked(ms2, keys[0]), Select(ms1, keys[1..]), Select(ms2, keys[1..]), pl, gap, indent);
    }
  }

  lemma AlikeAppend(a1: seq<Member>, a2: seq<Member>, b1: seq<Member>, b2: seq<Member>, pl: Option<seq<string>>, gap: string, indent: string)
    requires Alike(a1, a2, pl, gap, indent) && Alike(b1, b2, pl, gap, indent)
    ensures Alike(a1 + b1, a2 + b2, pl, gap, indent)
  {
    var c1, c2 := a1 + b1, a2 + b2;
    forall i | 0 <= i < |c1|
      ensures c1[i].key == c2[i].key && Serialize(c1[i].value, pl, gap, indent) == Serialize(c2[i].value, pl, gap, indent)
    {
      if i >= |a1| {
        assert c1[i] == b1[i - |a1|] && c2[i] == b2[i - |a1|];
      }
    }
  }

  /** Objects alike member by member print the same under a PropertyList. */
  lemma SerializeAlikeObjects(ms1: seq<Member>, ms2: seq<Member>, keys: seq<string>, gap: string, indent: string)
    requires Alike(ms1, ms2, Some(keys), gap, indent + gap)
    ensures Serialize(Obj(ms1), Some(keys), gap, indent) == Serialize(Obj(ms2), Some(keys), gap, indent)
  {
    var pl := Some(keys);
    SelectAlike(ms1, ms2, keys, pl, gap, indent + gap);
    var sel1, sel2 := Select(ms1, keys), Select(ms2, keys);
    assert seq(|sel1|, i requires 0 <= i < |sel1| => MemberText(sel1[i].key, Serialize(sel1[i].value, pl, gap, indent + gap), gap))
        == seq(|sel2|, i requires 0 <= i < |sel2| => MemberText(sel2[i].key, Serialize(sel2[i].value, pl, gap, indent + gap), gap));
  }

  /** Objects that differ only in the value of their last member, with values that print
      the same, are alike. */
  lemma AlikeButLast(ms: seq<Member>, k: string, x: Value, y: Value, pl: Option<seq<string>>, gap: string, indent: string)
    requires Serialize(x, pl, gap, indent) == Serialize(y, pl, gap, indent)
    ensures Alike(ms + [Member(k, x)], ms + [Member(k, y)], pl, gap, indent)
  {
  }

  /** Objects that differ only in their last member's value, where the two values print the
      same, print the same. */
  lemma SerializeButLast(ms: seq<Member>, k: string, x: Value, y: Value, keys: seq<string>, gap: string, indent: string)
    requires Serialize(x, Some(keys), gap, indent + gap) == Serialize(y, Some(keys), gap, indent + gap)
    ensures Serialize(Obj(ms + [Member(k, x)]), Some(keys), gap, indent)
         == Serialize(Obj(ms + [Member(k, y)]), Some(keys), gap, indent)
  {
    AlikeButLast(ms, k, x, y, Some(keys), gap, indent + gap);
    SerializeAlikeObjects(ms + [Member(k, x)], ms + [Member(k, y)], keys, gap, indent);
  }

  /** An object none of whose names is in the PropertyList prints as `{}`. */
  lemma {:induction false} SerializeUnlistedObject(ms: seq<Member>, keys: seq<string>, gap: string, indent: string)
    requires forall i :: 0 <= i < |ms| ==> ms[i].key !in keys
    ensures Serialize(Obj(ms), Some(keys), gap, indent) == "{}"
  {
    assert Select(ms, keys) == [] by { SelectNone(ms, keys); }
  }

  lemma {:induction false} SelectNone(ms: seq<Member>, keys: seq<string>)
    requires forall i :: 0 <= i < |ms| ==> ms[i].key !in keys
    ensures Select(ms, keys) == []
  {
    if keys != [] {
      assert keys[0] !in KeysOf(ms);
      SelectNone(ms, keys[1..]);
    }
  }

  /** Taking out the member at `j` takes its name out of the key list. */
  lemma KeysOfRemoveAt(ms: seq<Member>, j: nat, rest: seq<Member>)
    requires j < |ms| && rest == ms[..j] + ms[j + 1..]
    ensures multiset(KeysOf(ms)) == multiset(KeysOf(rest)) + multiset{ms[j].key}
  {
    var a, b := ms[..j], ms[j + 1..];
    assert ms == a + [ms[j]] + b;
    KeysOfAppend(a + [ms[j]], b);
    KeysOfAppend(a, [ms[j]]);
    KeysOfAppend(a, b);
    assert KeysOf([ms[j]]) == [ms[j].key];
  }

  lemma RemoveAt<T>(ms: seq<T>, j: nat)
    requires j < |ms|
    ensures multiset(ms[..j] + ms[j + 1..]) == multiset(ms) - multiset{ms[j]}
  {
    assert ms == ms[..j] + [ms[j]] + ms[j + 1..];
  }

  /** Objects with the same members have key lists that are permutations of each other. */
  lemma {:induction false} KeysOfPermutation(ms1: seq<Member>, ms2: seq<Member>)
    requires multiset(ms1) == multiset(ms2)
    ensures multiset(KeysOf(ms1)) == multiset(KeysOf(ms2))
    decreases |ms1|
  {
    if ms1 == [] {
      assert |ms2| == |multiset(ms2)| == 0;
    } else {
      var j := MatchFirst(ms1, ms2);
      var rest1, rest2 := ms1[1..], ms2[..j] + ms2[j + 1..];
      KeysOfPermutation(rest1, rest2);
      assert rest1 == ms1[..0] + ms1[0 + 1..];
      KeysOfRemoveAt(ms1, 0, rest1);
      KeysOfRemoveAt(ms2, j, rest2);
    }
  }

  /** Where the first element of `ms1` sits in its permutation `ms2`; the rest of each is a
      permutation of the rest of the other. */
  lemma MatchFirst<T>(ms1: seq<T>, ms2: seq<T>) returns (j: nat)
    requires ms1 != [] && multiset(ms1) == multiset(ms2)
    ensures j < |ms2| && ms2[j] == ms1[0]
    ensures multiset(ms1[1..]) == multiset(ms2[..j] + ms2[j + 1..])
  {
    assert ms1[0] in multiset(ms2);
    j :| 0 <= j < |ms2| && ms2[j] == ms1[0];
    RemoveFirst(ms1);
    RemoveAt(ms2, j);
  }

  lemma RemoveFirst<T>(ms: seq<T>)
    requires ms != []
    ensures multiset(ms[1..]) == multiset(ms) - multiset{ms[0]}
  {
    assert ms == [ms[0]] + ms[1..];
  }

  /** In an object with unique names, looking a name up finds exactly the member with it. */
  lemma {:induction false} LookupFindsMember(ms: seq<Member>, k: string, v: Value)
    requires UniqueKeys(ms)
    ensures Lookup(ms, k) == Some(v) <==> Member(k, v) in ms
  {
    if ms != [] && ms[0].key != k {
      LookupFindsMember(ms[1..], k, v);
    }
  }

  /** Reading the name of a member that no earlier member shares finds that member. */
  lemma {:induction false} LookupFirst(ms: seq<Member>, i: nat)
    requires i < |ms| && forall j :: 0 <= j < i ==> ms[j].key != ms[i].key
    ensures Lookup(ms, ms[i].key) == Some(ms[i].value)
  {
    if i > 0 {
      assert ms[1..][i - 1] == ms[i];
      LookupFirst(ms[1..], i - 1);
    }
  }

  lemma {:induction false} SelectSameLookups(ms1: seq<Member>, ms2: seq<Member>, keys: seq<string>)
    requires forall i :: 0 <= i < |keys| ==> Lookup(ms1, keys[i]) == Lookup(ms2, keys[i])
    ensures Select(ms1, keys) == Select(ms2, keys)
  {
    if keys != [] {
      SelectSameLookups(ms1, ms2, keys[1..]);
    }
  }

  /** The canonical form `calculateHash` relies on: an object printed with its own sorted key
      list as PropertyList gives the same text whatever order its members were added in. */
  lemma SortedKeysFixOrder(ms1: seq<Member>, ms2: seq<Member>, gap: string, indent: string)
    requires UniqueKeys(ms1) && UniqueKeys(ms2) && multiset(ms1) == multiset(ms2)
    ensures Serialize(Obj(ms1), Some(KeySort.Sort(KeysOf(ms1))), gap, indent)
         == Serialize(Obj(ms2), Some(KeySort.Sort(KeysOf(ms2))), gap, indent)
  {
    KeysOfPermutation(ms1, ms2);
    KeySort.SortIgnoresOrder(KeysOf(ms1), KeysOf(ms2));
    var keys := KeySort.Sort(KeysOf(ms1));
    forall i | 0 <= i < |keys| ensures Lookup(ms1, keys[i]) == Lookup(ms2, keys[i]) {
      var k := keys[i];
      match Lookup(ms1, k)
      case Some(v) =>
        LookupFindsMember(ms1, k, v);
        LookupFindsMember(ms2, k, v);
        assert Member(k, v) in multiset(ms2);
      case None =>
        if Lookup(ms2, k).Some? {
          var v := Lookup(ms2, k).value;
          LookupFindsMember(ms2, k, v);
          LookupFindsMember(ms1, k, v);
          assert Member(k, v) in multiset(ms1);
        }
    }
    SelectSameLookups(ms1, ms2, keys);
  }

  // ---------------------------------------------------------------------------------------
  // One more member changes the compact text

  /** The member texts `Serialize` wraps in braces for the selected members `sel`. */
  function Parts(sel: seq<Member>, propertyList: Option<seq<string>>, gap: string, indent: string): (r: seq<string>)
    ensures |r| == |sel|
  {
    seq(|sel|, i requires 0 <= i < |sel| => MemberText(sel[i].key, Serialize(sel[i].value, propertyList, gap, indent + gap), gap))
  }

  lemma PartsAppend(a: seq<Member>, b: seq<Member>, propertyList: Option<seq<string>>)
    ensures Parts(a + b, propertyList, "", "") == Parts(a, propertyList, "", "") + Parts(b, propertyList, "", "")
  {
  }

  lemma ObjectParts(ms: seq<Member>, keys: seq<string>, gap: string, indent: string)
    ensures Serialize(Obj(ms), Some(keys), gap, indent) == Wrap("{", "}", Parts(Select(ms, keys), Some(keys), gap, indent), gap, indent)
  {
  }

  /** No object occurs anywhere inside `v`. */
  predicate Flat(v: Value) {
    match v
    case Arr(items) => forall i :: 0 <= i < |items| ==> Flat(items[i])
    case Obj(_) => false
    case _ => true
  }

  /** A value without objects prints the same under any PropertyList. */
  lemma {:induction false} FlatIgnoresPropertyList(v: Value, pl1: Option<seq<string>>, pl2: Option<seq<string>>, gap: string, indent: string)
    requires Flat(v)
    ensures Serialize(v, pl1, gap, indent) == Serialize(v, pl2, gap, indent)
  {
    match v
    case Arr(items) =>
      forall i | 0 <= i < |items|
        ensures Serialize(items[i], pl1, gap, indent + gap) == Serialize(items[i], pl2, gap, indent + gap)
      {
        FlatIgnoresPropertyList(items[i], pl1, pl2, gap, indent + gap);
      }
      assert seq(|items|, i requires 0 <= i < |items| => Serialize(items[i], pl1, gap, indent + gap))
          == seq(|items|, i requires 0 <= i < |items| => Serialize(items[i], pl2, gap, indent + gap));
    case _ =>
  }

  lemma FlatPartsIgnorePropertyList(sel: seq<Member>, pl1: Option<seq<string>>, pl2: Option<seq<string>>, gap: string, indent: string)
    requires forall i :: 0 <= i < |sel| ==> Flat(sel[i].value)
    ensures Parts(sel, pl1, gap, indent) == Parts(sel, pl2, gap, indent)
  {
    forall i | 0 <= i < |sel|
      ensures Parts(sel, pl1, gap, indent)[i] == Parts(sel, pl2, gap, indent)[i]
    {
      FlatIgnoresPropertyList(sel[i].value, pl1, pl2, gap, indent + gap);
    }
  }

  lemma FlatSelectionIgnoresPropertyList(ms: seq<Member>, keys: seq<string>, pl1: Option<seq<string>>, pl2: Option<seq<string>>)
    requires forall mem :: mem in ms ==> Flat(mem.value)
    ensures Parts(Select(ms, keys), pl1, "", "") == Parts(Select(ms, keys), pl2, "", "")
  {
    var sel := Select(ms, keys);
    forall i | 0 <= i < |sel| ensures Flat(sel[i].value) {
      assert sel[i] in ms;
    }
    FlatPartsIgnorePropertyList(sel, pl1, pl2, "", "");
  }

  lemma {:induction false} JoinAppend(sep: string, a: seq<string>, b: seq<string>)
    requires a != [] && b != []
    ensures Join(sep, a + b) == Join(sep, a) + sep + Join(sep, b)
  {
    if |a| == 1 {
      assert (a + b)[1..] == b;
    } else {
      assert (a + b)[1..] == a[1..] + b;
      JoinAppend(sep, a[1..], b);
    }
  }

  /** Compact text of members `pa + pb` against that of `pa`, another member `x`, then any
      members: the two differ at the first name character after `pa`. */
  lemma WrapInsertDiffers(pa: seq<string>, x: string, pb: seq<string>, pc: seq<string>)
    requires pb != [] && |x| >= 2 && |pb[0]| >= 2 && x[1] != pb[0][1]
    ensures Wrap("{", "}", pa + pb, "", "") != Wrap("{", "}", pa + [x] + pc, "", "")
  {
    var j1, j2 := Join(",", pb), Join(",", [x] + pc);
    JoinHead(",", pb);
    JoinHead(",", [x] + pc);
    WrapAfter(pa, pb);
    WrapAfter(pa, [x] + pc);
    assert pa + [x] + pc == pa + ([x] + pc);
    DiffersAt(WrapHead(pa), j1, j2, "}");
  }

  /** The opening of the compact text of `pa` followed by at least one more member. */
  function WrapHead(pa: seq<string>): string {
    if pa == [] then "{" else "{" + Join(",", pa) + ","
  }

  lemma WrapAfter(pa: seq<string>, pb: seq<string>)
    requires pb != []
    ensures Wrap("{", "}", pa + pb, "", "") == WrapHead(pa) + Join(",", pb) + "}"
  {
    if pa == [] {
      assert pa + pb == pb;
    } else {
      JoinAppend(",", pa, pb);
      Regroup(Join(",", pa), Join(",", pb));
    }
  }

  lemma Regroup(x: string, y: string)
    ensures "{" + (x + "," + y) + "}" == "{" + x + "," + y + "}"
  {
  }

  /** Texts that differ at their second character stay different inside the same brackets. */
  lemma DiffersAt(h: string, a: string, b: string, t: string)
    requires |a| >= 2 && |b| >= 2 && a[1] != b[1]
    ensures h + a + t != h + b + t
  {
    assert (h + a + t)[|h| + 1] == a[1];
    assert (h + b + t)[|h| + 1] == b[1];
  }

  lemma JoinHead(sep: string, parts: seq<string>)
    requires parts != []
    ensures |Join(sep, parts)| >= |parts[0]|
    ensures Join(sep, parts)[..|parts[0]|] == parts[0]
  {
  }

  /** A lower-case letter escapes as itself. */
  lemma EscapedLetter(s: string)
    requires s != [] && 'a' <= s[0] <= 'z'
    ensures Escaped(s) != [] && Escaped(s)[0] == s[0]
  {
  }

  lemma {:induction false} LookupAppendOther(ms: seq<Member>, m: Member, k: string)
    requires k != m.key
    ensures Lookup(ms + [m], k) == Lookup(ms, k)
  {
    if ms != [] && ms[0].key != k {
      assert (ms + [m])[1..] == ms[1..] + [m];
      LookupAppendOther(ms[1..], m, k);
    }
  }

  lemma {:induction false} LookupAppendNew(ms: seq<Member>, m: Member)
    requires m.key !in KeysOf(ms)
    ensures Lookup(ms + [m], m.key) == Some(m.value)
  {
    if ms != [] {
      assert KeysOf(ms) == [ms[0].key] + KeysOf(ms[1..]);
      assert (ms + [m])[1..] == ms[1..] + [m];
      LookupAppendNew(ms[1..], m);
    }
  }

  /** Selecting with one more name, for a member appended under that name. */
  lemma SelectWithAppended(ms: seq<Member>, m: Member, before: seq<string>, after: seq<string>)
    requires m.key !in KeysOf(ms) && m.key !in before
    ensures Select(ms + [m], before + [m.key] + after) == Select(ms, before) + [m] + Select(ms + [m], after)
  {
    SelectAppend(ms + [m], before + [m.key], after);
    SelectAppend(ms + [m], before, [m.key]);
    forall i | 0 <= i < |before| ensures Lookup(ms + [m], before[i]) == Lookup(ms, before[i]) {
      LookupAppendOther(ms, m, before[i]);
    }
    SelectSameLookups(ms + [m], ms, before);
    assert Select(ms + [m], [m.key]) == [m] by {
      LookupAppendNew(ms, m);
      assert [m.key][1..] == [];
    }
  }

  /** An object printed compactly under a PropertyList, against the same object with one more
      member whose name is added to the list: when the name sorts directly before a listed
      name of the object that starts with another character, the texts differ. */
  lemma AppendedMemberShows(ms: seq<Member>, m: Member, before: seq<string>, after: seq<string>)
    requires m.key !in KeysOf(ms) && m.key !in before
    requires forall mem :: mem in ms ==> Flat(mem.value)
    requires after != [] && after[0] in KeysOf(ms)
    requires m.key != [] && after[0] != [] && 'a' <= m.key[0] <= 'z' && 'a' <= after[0][0] <= 'z' && m.key[0] != after[0][0]
    ensures Serialize(Obj(ms), Some(before + after), "", "")
         != Serialize(Obj(ms + [m]), Some(before + [m.key] + after), "", "")
  {
    var pl1, pl2 := Some(before + after), Some(before + [m.key] + after);
    var sa, sb, sc := Select(ms, before), Select(ms, after), Select(ms + [m], after);
    TextWithoutAppended(ms, before, after);
    TextWithAppended(ms, m, before, after);
    assert sb != [] && sb[0].key == after[0];
    FlatSelectionIgnoresPropertyList(ms, before, pl1, pl2);
    PartHead(sb, pl1);
    PartHead([m], pl2);
    WrapInsertDiffers(Parts(sa, pl1, "", ""), Parts([m], pl2, "", "")[0], Parts(sb, pl1, "", ""), Parts(sc, pl2, "", ""));
  }

  lemma TextWithoutAppended(ms: seq<Member>, before: seq<string>, after: seq<string>)
    ensures Serialize(Obj(ms), Some(before + after), "", "")
         == Wrap("{", "}", Parts(Select(ms, before), Some(before + after), "", "") + Parts(Select(ms, after), Some(before + after), "", ""), "", "")
  {
    SelectAppend(ms, before, after);
    ObjectParts(ms, before + after, "", "");
    PartsAppend(Select(ms, before), Select(ms, after), Some(before + after));
  }

  lemma TextWithAppended(ms: seq<Member>, m: Member, before: seq<string>, after: seq<string>)
    requires m.key !in KeysOf(ms) && m.key !in before
    ensures var pl := Some(before + [m.key] + after);
      Serialize(Obj(ms + [m]), pl, "", "")
      == Wrap("{", "}", Parts(Select(ms, before), pl, "", "") + [Parts([m], pl, "", "")[0]] + Parts(Select(ms + [m], after), pl, "", ""), "", "")
  {
    var pl := Some(before + [m.key] + after);
    SelectWithAppended(ms, m, before, after);
    ObjectParts(ms + [m], pl.value, "", "");
    var sa, sc := Select(ms, before), Select(ms + [m], after);
    PartsAppend(sa + [m], sc, pl);
    PartsAppend(sa, [m], pl);
    assert Parts([m], pl, "", "") == [Parts([m], pl, "", "")[0]];
  }

  /** The compact text of the first selected member starts with a quote and then, for a name
      starting with a lower-case letter, that letter. */
  lemma PartHead(sel: seq<Member>, propertyList: Option<seq<string>>)
    requires sel != [] && sel[0].key != [] && 'a' <= sel[0].key[0] <= 'z'
    ensures |Parts(sel, propertyList, "", "")[0]| >= 2
    ensures Parts(sel, propertyList, "", "")[0][1] == sel[0].key[0]
  {
    EscapedLetter(sel[0].key);
  }
}
