/**
 * The recipe ledger: blocks, the sealing digest, proof-of-work mining, and the
 * RecipeBlockchain class that owns the chain, appends to it, annotates it and validates it.
 * SHA-256 is a parameter: every statement below holds for every function from text to a
 * 64-character lowercase hex digest.
 */
module Blockchain {
  import opened Common
  import opened JsText
  import opened Json
  import KeySort

  predicate IsLowerHex(c: char) {
    '0' <= c <= '9' || 'a' <= c <= 'f'
  }

  predicate IsHexDigest(s: string) {
    |s| == 64 && forall i :: 0 <= i < 64 ==> IsLowerHex(s[i])
  }

  /** `digest("hex")` of a SHA-256 hash: 64 lowercase hex characters. */
  type Digest = s: string | IsHexDigest(s) witness seq(64, _ => '0')

  /** `text => crypto.createHash("sha256").update(text).digest("hex")`. */
  type Sha256 = string -> Digest

  /** What the server attaches to a block after anchoring it elsewhere. */
  datatype Onchain =
    | Anchored(dataHash: string, txHash: string)
    | AnchorFailed(dataHash: string, error: string)

  /** One block of the chain. `timestamp` counts milliseconds; the stored number is
      `timestamp / 1000` seconds. `None` stands for a property that is absent or `undefined`. */
  datatype Block = Block(
    index: nat,
    timestamp: nat,
    title: string,
    ingredients: seq<string>,
    steps: seq<string>,
    creator: string,
    previous_hash: Option<string>,
    nonce: nat,
    hash: Option<string>,
    onchain: Option<Onchain>)

  /** The fields a caller of `addRecipe` supplies. */
  datatype Recipe = Recipe(title: string, ingredients: seq<string>, steps: seq<string>, creator: string)

  /** `previous_hash` of the genesis block. */
  const GenesisPreviousHash: string := Zeros(64)

  /** `s` without its trailing zeros: a prefix of `s` followed only by zeros in `s`. */
  function StripTrailingZeros(s: string): (r: string)
    ensures r <= s
    ensures forall k :: |r| <= k < |s| ==> s[k] == '0'
    ensures r == [] || r[|r| - 1] != '0'
    ensures (exists i :: 0 <= i < |s| && s[i] != '0') ==> r != []
  {
    if s != [] && s[|s| - 1] == '0' then StripTrailingZeros(s[..|s| - 1]) else s
  }

  /** The three decimal digits of a number below 1000, read back. */
  lemma ThreeDigits(f: nat)
    requires f < 1000
    ensures var d := [Digit(f / 100), Digit(f / 10 % 10), Digit(f % 10)];
      (forall k :: 0 <= k < 3 ==> '0' <= d[k] <= '9') && DecValue(d) == f
  {
    DigitsValue(f / 100, f / 10 % 10, f % 10);
    assert f / 10 == f / 100 * 10 + f / 10 % 10;
    assert f == f / 10 * 10 + f % 10;
  }

  lemma DigitsValue(a: nat, b: nat, c: nat)
    requires a < 10 && b < 10 && c < 10
    ensures var d := [Digit(a), Digit(b), Digit(c)];
      (forall k :: 0 <= k < 3 ==> '0' <= d[k] <= '9') && DecValue(d) == (a * 10 + b) * 10 + c
  {
    var d := [Digit(a), Digit(b), Digit(c)];
    DigitValue(a);
    DigitValue(b);
    DigitValue(c);
    var d1 := [d[0]];
    var d2 := [d[0], d[1]];
    assert d1[..0] == [];
    assert DecValue(d1) == a;
    assert d2[..1] == d1;
    assert DecValue(d2) == a * 10 + b;
    assert d[..2] == d2;
    assert DecValue(d) == DecValue(d2) * 10 + c;
  }

  /** The text JavaScript prints for the number `ms / 1000`: the whole seconds, then, unless
      the milliseconds are zero, a point and up to three digits without trailing zeros which,
      padded back to three digits, read as the milliseconds. */
  function TimestampText(ms: nat): (r: string)
    ensures Dec(ms / 1000) <= r
    ensures ms % 1000 == 0 ==> r == Dec(ms / 1000)
    ensures ms % 1000 != 0 ==> |r| > |Dec(ms / 1000)| + 1 && r[|Dec(ms / 1000)|] == '.' && r[|r| - 1] != '0'
    ensures ms % 1000 != 0 ==> |r| <= |Dec(ms / 1000)| + 4 && forall k :: |Dec(ms / 1000)| < k < |r| ==> '0' <= r[k] <= '9'
    ensures ms % 1000 != 0 ==> DecValue(r[|Dec(ms / 1000)| + 1..] + Zeros(|Dec(ms / 1000)| + 4 - |r|)) == ms % 1000
  {
    var f := ms % 1000;
    var digits := [Digit(f / 100), Digit(f / 10 % 10), Digit(f % 10)];
    ThreeDigits(f);
    assert f != 0 ==> digits[0] != '0' || digits[1] != '0' || digits[2] != '0';
    var frac := StripTrailingZeros(digits);
    assert frac + Zeros(3 - |frac|) == digits;
    var r := Dec(ms / 1000) + (if f == 0 then "" else "." + frac);
    assert f != 0 ==> r[|Dec(ms / 1000)| + 1..] == frac;
    r
  }

  function StrArray(xs: seq<string>): Value {
    Arr(seq(|xs|, i requires 0 <= i < |xs| => Str(xs[i])))
  }

  function OnchainObject(o: Onchain): Value {
    match o
    case Anchored(d, t) => Obj([Member("dataHash", Str(d)), Member("txHash", Str(t))])
    case AnchorFailed(d, e) => Obj([Member("dataHash", Str(d)), Member("error", Str(e))])
  }

  function Present(key: string, v: Option<string>): seq<Member> {
    if v.Some? then [Member(key, Str(v.value))] else []
  }

  /** The members a block is built with in `createGenesisBlock` and `addRecipe`, in that order. */
  function FieldMembers(b: Block): seq<Member> {
    [ Member("index", Num(Dec(b.index))),
      Member("timestamp", Num(TimestampText(b.timestamp))),
      Member("title", Str(b.title)),
      Member("ingredients", StrArray(b.ingredients)),
      Member("steps", StrArray(b.steps)),
      Member("creator", Str(b.creator)) ]
    + Present("previous_hash", b.previous_hash)
    + [Member("nonce", Num(Dec(b.nonce)))]
  }

  function OnchainMember(b: Block): seq<Member> {
    if b.onchain.Some? then [Member("onchain", OnchainObject(b.onchain.value))] else []
  }

  /** The block as a JavaScript object: `hash` is added after mining, `onchain` by annotation. */
  function Members(b: Block): seq<Member> {
    FieldMembers(b) + Present("hash", b.hash) + OnchainMember(b)
  }

  /** `hashableBlock`: the block without its `hash` property. */
  function HashableBlock(b: Block): (r: Value)
    ensures r.Obj? && "hash" !in KeysOf(r.members)
    ensures forall k :: k != "hash" ==> Lookup(r.members, k) == Lookup(Members(b), k)
  {
    DropKeyKeepsOthers(Members(b), "hash");
    Obj(DropKey(Members(b), "hash"))
  }

  /** `JSON.stringify(hashableBlock(block), Object.keys(block).sort())`. */
  function HashInput(b: Block): (r: string)
    ensures |r| >= 2 && r[0] == '{' && r[|r| - 1] == '}'
  {
    Stringify(HashableBlock(b), Some(KeySort.Sort(KeysOf(Members(b)))), "")
  }

  /** `calculateHash`. */
  function CalculateHash(sha256: Sha256, b: Block): Digest {
    sha256(HashInput(b))
  }

  // ---------------------------------------------------------------------------------------
  // What the sealing digest depends on

  const FieldNames: set<string> :=
    {"index", "timestamp", "title", "ingredients", "steps", "creator", "previous_hash", "nonce"}

  const OnchainNames: set<string> := {"dataHash", "txHash", "error"}

  lemma FieldMembersNames(b: Block)
    ensures forall i :: 0 <= i < |FieldMembers(b)| ==> FieldMembers(b)[i].key in FieldNames
    ensures forall k :: k in KeysOf(FieldMembers(b)) ==> k in FieldNames
  {
  }

  lemma StrArrayMentionsNothing(xs: seq<string>, k: string)
    ensures !Mentions(StrArray(xs), k)
  {
  }

  lemma OnchainNamesOnly(o: Onchain, k: string)
    requires Mentions(OnchainObject(o), k)
    ensures k in OnchainNames
  {
  }

  /** The only names inside a block's object are its own property names and those of its
      anchoring data. */
  lemma MentionedNames(b: Block, k: string)
    requires Mentions(Obj(Members(b)), k)
    ensures k in FieldNames || k in OnchainNames || (k == "hash" && b.hash.Some?) || (k == "onchain" && b.onchain.Some?)
  {
    var ms := Members(b);
    var i :| 0 <= i < |ms| && (ms[i].key == k || Mentions(ms[i].value, k));
    var fm, hm := FieldMembers(b), Present("hash", b.hash);
    if i >= |fm| + |hm| {
      assert ms[i] == Member("onchain", OnchainObject(b.onchain.value));
      if ms[i].key != k { OnchainNamesOnly(b.onchain.value, k); }
    } else if i >= |fm| {
      assert ms[i] == hm[i - |fm|];
    } else {
      assert ms[i] == fm[i];
      FieldMemberMentions(b, i, k);
    }
  }

  lemma FieldMemberMentions(b: Block, i: nat, k: string)
    requires i < |FieldMembers(b)|
    requires FieldMembers(b)[i].key == k || Mentions(FieldMembers(b)[i].value, k)
    ensures k in FieldNames
  {
    FieldMembersNames(b);
    StrArrayMentionsNothing(b.ingredients, k);
    StrArrayMentionsNothing(b.steps, k);
  }

  /** `hashableBlock` yields the members of the unsealed block. */
  lemma HashableBlockUnsealed(b: Block)
    ensures HashableBlock(b) == Obj(Members(b.(hash := None)))
  {
    FieldMembersNames(b);
    assert "hash" !in KeysOf(FieldMembers(b));
    assert "hash" !in KeysOf(OnchainMember(b));
    DropHashBetween(FieldMembers(b), Present("hash", b.hash), OnchainMember(b));
    assert FieldMembers(b.(hash := None)) == FieldMembers(b);
    assert Members(b.(hash := None)) == FieldMembers(b) + OnchainMember(b);
  }

  /** Dropping `hash` from members with a `hash` member (or none) between two runs without
      one leaves the two runs. */
  lemma DropHashBetween(a: seq<Member>, h: seq<Member>, o: seq<Member>)
    requires "hash" !in KeysOf(a) && "hash" !in KeysOf(o)
    requires h == [] || (|h| == 1 && h[0].key == "hash")
    ensures DropKey(a + h + o, "hash") == a + o
  {
    DropKeyAppend(a + h, o, "hash");
    DropKeyAppend(a, h, "hash");
    DropAbsentKey(a, "hash");
    DropAbsentKey(o, "hash");
    DropOnlyHash(h);
    Collapse(DropKey(a + h + o, "hash"), DropKey(a + h, "hash"), DropKey(a, "hash"), DropKey(h, "hash"), DropKey(o, "hash"), a, o);
  }

  /** Sequence bookkeeping for the lemma above. */
  lemma Collapse<T>(whole: seq<T>, x: seq<T>, da: seq<T>, dh: seq<T>, d: seq<T>, a: seq<T>, o: seq<T>)
    requires whole == x + d && x == da + dh && da == a && dh == [] && d == o
    ensures whole == a + o
  {
    assert a + [] == a;
  }

  lemma DropOnlyHash(h: seq<Member>)
    requires h == [] || (|h| == 1 && h[0].key == "hash")
    ensures DropKey(h, "hash") == []
  {
    if h != [] {
      assert h[1..] == [];
    }
  }

  /** The key list of a sealed block, sorted, with `hash` taken out, is the sorted key list of
      the block before sealing. */
  lemma SortedKeysWithoutHash(b: Block)
    requires b.hash.Some?
    ensures KeySort.Without(KeySort.Sort(KeysOf(Members(b))), "hash") == KeySort.Sort(KeysOf(Members(b.(hash := None))))
  {
    var fk, ok := KeysOf(FieldMembers(b)), KeysOf(OnchainMember(b));
    SealedKeys(b);
    FieldMembersNames(b);
    assert "hash" !in fk + ok;
    MultisetMiddle(fk, "hash", ok);
    KeySort.SortThenDrop(fk + ok, fk + ["hash"] + ok, "hash");
  }

  lemma KeysOfMembers(b: Block)
    ensures KeysOf(Members(b)) == KeysOf(FieldMembers(b)) + KeysOf(Present("hash", b.hash)) + KeysOf(OnchainMember(b))
  {
    KeysOfAppend(FieldMembers(b) + Present("hash", b.hash), OnchainMember(b));
    KeysOfAppend(FieldMembers(b), Present("hash", b.hash));
  }

  /** The key lists of a sealed block and of the same block before sealing. */
  lemma SealedKeys(b: Block)
    requires b.hash.Some?
    ensures KeysOf(Members(b)) == KeysOf(FieldMembers(b)) + ["hash"] + KeysOf(OnchainMember(b))
    ensures KeysOf(Members(b.(hash := None))) == KeysOf(FieldMembers(b)) + KeysOf(OnchainMember(b))
  {
    var fm, om := FieldMembers(b), OnchainMember(b);
    assert FieldMembers(b.(hash := None)) == fm;
    assert Members(b.(hash := None)) == fm + om;
    KeysOfAppend(fm, om);
    KeysOfAppend(fm + Present("hash", b.hash), om);
    KeysOfAppend(fm, Present("hash", b.hash));
  }

  lemma MultisetMiddle<T>(x: seq<T>, k: T, y: seq<T>)
    ensures multiset(x + [k] + y) == multiset(x + y) + multiset{k}
  {
  }

  lemma UnsealedMentionsNoHash(b: Block)
    requires b.hash.None?
    ensures !Mentions(Obj(Members(b)), "hash")
  {
    if Mentions(Obj(Members(b)), "hash") { MentionedNames(b, "hash"); }
  }

  /** A sealed block's digest input equals that of the same block before sealing. */
  lemma HashInputIgnoresSeal(b: Block)
    ensures HashInput(b) == HashInput(b.(hash := None))
  {
    var b0 := b.(hash := None);
    if b.hash.Some? {
      HashableBlockUnsealed(b);
      HashableBlockUnsealed(b0);
      assert b0.(hash := None) == b0;
      SortedKeysWithoutHash(b);
      UnsealedMentionsNoHash(b0);
      SerializeWithoutAbsent(HashableBlock(b), KeySort.Sort(KeysOf(Members(b))), "hash", "", "");
    } else {
      assert b == b0;
    }
  }

  /** The stored `hash` is not part of the digest input: two blocks that differ only in
      `hash` have the same recomputed digest. */
  lemma HashIgnoresStoredHash(sha256: Sha256, b: Block, h: Option<string>)
    ensures CalculateHash(sha256, b.(hash := h)) == CalculateHash(sha256, b)
  {
    HashInputIgnoresSeal(b);
    HashInputIgnoresSeal(b.(hash := h));
    assert b.(hash := h).(hash := None) == b.(hash := None);
  }

  /** Under a key list drawn from a block's own names, anchoring data prints as `{}`. */
  lemma OnchainPrintsEmpty(b: Block, o: Onchain, keys: seq<string>)
    requires multiset(keys) == multiset(KeysOf(Members(b)))
    ensures Serialize(OnchainObject(o), Some(keys), "", "") == "{}"
  {
    var ms := OnchainObject(o).members;
    forall i | 0 <= i < |ms| ensures ms[i].key !in keys {
      OnchainKeys(o, i);
      NoOnchainNameIn(b, ms[i].key);
      assert ms[i].key !in multiset(KeysOf(Members(b)));
    }
    SerializeUnlistedObject(ms, keys, "", "");
  }

  lemma OnchainKeys(o: Onchain, i: nat)
    requires i < |OnchainObject(o).members|
    ensures OnchainObject(o).members[i].key in OnchainNames
  {
  }

  /** The names inside anchoring data are none of the block's own property names. */
  lemma NoOnchainNameIn(b: Block, n: string)
    requires n in OnchainNames
    ensures n !in KeysOf(Members(b))
  {
    FieldMembersNames(b);
    KeysOfMembers(b);
  }

  lemma AnchoredMembers(b: Block, o: Onchain)
    requires b.hash.None?
    ensures Members(b.(onchain := Some(o))) == FieldMembers(b) + [Member("onchain", OnchainObject(o))]
    ensures KeysOf(Members(b.(onchain := Some(o)))) == KeysOf(FieldMembers(b)) + ["onchain"]
    ensures HashInput(b.(onchain := Some(o)))
         == Serialize(Obj(Members(b.(onchain := Some(o)))), Some(KeySort.Sort(KeysOf(Members(b.(onchain := Some(o)))))), "", "")
  {
    var a := b.(onchain := Some(o));
    HashableBlockUnsealed(a);
    assert a.(hash := None) == a;
    assert FieldMembers(a) == FieldMembers(b);
    KeysOfAppend(FieldMembers(b), [Member("onchain", OnchainObject(o))]);
  }

  /** The anchoring data serialises as `{}` under the block's key list, so only its presence
      reaches the digest input, not its contents. */
  lemma HashInputIgnoresOnchainContents(b: Block, x: Onchain, y: Onchain)
    requires b.hash.None?
    ensures HashInput(b.(onchain := Some(x))) == HashInput(b.(onchain := Some(y)))
  {
    var withX, withY := b.(onchain := Some(x)), b.(onchain := Some(y));
    AnchoredMembers(b, x);
    AnchoredMembers(b, y);
    var keys := KeySort.Sort(KeysOf(Members(withX)));
    OnchainPrintsEmpty(withX, x, keys);
    OnchainPrintsEmpty(withX, y, keys);
    assert "" + "" == "";
    SerializeButLast(FieldMembers(b), "onchain", OnchainObject(x), OnchainObject(y), keys, "", "");
  }

  /** Whatever the stored `hash` and whatever the anchoring data, the digest input is fixed by
      the other fields together with whether an `onchain` property is present. */
  lemma HashInputDeterminedBy(b1: Block, b2: Block)
    requires b1.(hash := None, onchain := None) == b2.(hash := None, onchain := None)
    requires b1.onchain.Some? == b2.onchain.Some?
    ensures HashInput(b1) == HashInput(b2)
  {
    HashInputIgnoresSeal(b1);
    HashInputIgnoresSeal(b2);
    var c1, c2 := b1.(hash := None), b2.(hash := None);
    if b1.onchain.Some? {
      HashInputIgnoresOnchainContents(c1, b1.onchain.value, b2.onchain.value);
      assert c1.(onchain := Some(b1.onchain.value)) == c1;
      assert c1.(onchain := Some(b2.onchain.value)) == c2;
    } else {
      assert c1 == c2;
    }
  }

  /** A key list with `onchain` added exactly once, cut where `onchain` stands. */
  lemma CutAtOnchain(keys: seq<string>, sorted: seq<string>) returns (before: seq<string>, after: seq<string>)
    requires "onchain" !in keys
    requires multiset(sorted) == multiset(keys) + multiset{"onchain"}
    ensures sorted == before + ["onchain"] + after
    ensures "onchain" !in before && "onchain" !in after
  {
    assert "onchain" in multiset(sorted);
    var j :| 0 <= j < |sorted| && sorted[j] == "onchain";
    before, after := sorted[..j], sorted[j + 1..];
    assert sorted == before + ["onchain"] + after;
    assert multiset(keys)["onchain"] == 0;
    assert multiset(sorted) == multiset(before) + multiset{"onchain"} + multiset(after);
  }

  /** Sorting the key list with `onchain` added puts it between the keys that sort before it
      and at least one field name that sorts after it (`title`). */
  lemma SplitAtOnchain(keys: seq<string>) returns (before: seq<string>, after: seq<string>)
    requires "onchain" !in keys && "title" in keys
    ensures KeySort.Sort(keys + ["onchain"]) == before + ["onchain"] + after
    ensures KeySort.Sort(keys) == before + after
    ensures "onchain" !in before
    ensures after != [] && after[0] in keys
  {
    var sorted := KeySort.Sort(keys + ["onchain"]);
    before, after := CutAtOnchain(keys, sorted);
    KeySort.SortDropInserted(keys, "onchain", before, after);
    TitleAfterOnchain(keys, before, after);
    assert after[0] in multiset(before + after);
  }

  lemma TitleAfterOnchain(keys: seq<string>, before: seq<string>, after: seq<string>)
    requires KeySort.Sort(keys + ["onchain"]) == before + ["onchain"] + after
    requires "title" in keys
    ensures after != []
  {
    var sorted := KeySort.Sort(keys + ["onchain"]);
    KeySort.SortSorted(keys + ["onchain"]);
    assert "title" in multiset(sorted);
    var t :| 0 <= t < |sorted| && sorted[t] == "title";
    assert !KeySort.Le("title", "onchain");
    assert sorted[|before|] == "onchain";
  }

  /** Annotating a block changes its digest input: `onchain` joins the sorted key list and
      prints as `"onchain":{}` between the keys around it. This is why an annotated block no
      longer matches its stored hash. */
  lemma AnchorChangesHashInput(b: Block, o: Onchain)
    requires b.onchain.None?
    ensures HashInput(b.(onchain := Some(o))) != HashInput(b)
  {
    var c := b.(hash := None);
    var ms := FieldMembers(c);
    var om := Member("onchain", OnchainObject(o));
    var keys := KeysOf(ms);
    assert keys[2] == "title";
    FieldMembersNames(c);
    var before, after := SplitAtOnchain(keys);
    UnanchoredHashInput(b);
    AnchoredHashInput(b, o);
    FieldMembersFlat(c);
    FirstLetterOfField(after[0]);
    AppendedMemberShows(ms, om, before, after);
  }

  /** The digest input of an unanchored block prints its field members under their own sorted
      names. */
  lemma UnanchoredHashInput(b: Block)
    requires b.onchain.None?
    ensures var ms := FieldMembers(b.(hash := None));
      HashInput(b) == Serialize(Obj(ms), Some(KeySort.Sort(KeysOf(ms))), "", "")
  {
    HashInputIgnoresSeal(b);
    BareHashInput(b.(hash := None));
  }

  lemma BareHashInput(c: Block)
    requires c.hash.None? && c.onchain.None?
    ensures HashInput(c) == Serialize(Obj(FieldMembers(c)), Some(KeySort.Sort(KeysOf(FieldMembers(c)))), "", "")
  {
    HashableBlockUnsealed(c);
    assert c.(hash := None) == c;
    assert Members(c) == FieldMembers(c);
  }

  /** The digest input of the anchored block prints the field members and `onchain` under
      the sorted names with `onchain` among them. */
  lemma AnchoredHashInput(b: Block, o: Onchain)
    ensures var ms := FieldMembers(b.(hash := None));
      HashInput(b.(onchain := Some(o)))
        == Serialize(Obj(ms + [Member("onchain", OnchainObject(o))]), Some(KeySort.Sort(KeysOf(ms) + ["onchain"])), "", "")
  {
    var c := b.(hash := None);
    HashInputIgnoresSeal(b.(onchain := Some(o)));
    assert b.(onchain := Some(o)).(hash := None) == c.(onchain := Some(o));
    AnchoredMembers(c, o);
  }

  lemma FirstLetterOfField(name: string)
    requires name in FieldNames
    ensures name != [] && 'a' <= name[0] <= 'z' && name[0] != 'o'
  {
  }

  lemma FieldMembersFlat(b: Block)
    ensures forall mem :: mem in FieldMembers(b) ==> Flat(mem.value)
  {
  }

  // ---------------------------------------------------------------------------------------
  // Proof of work
  //
  // From here on the digest of a block is a function value `hashOf`; the ledger uses
  // `Recompute(sha256)`. Keeping it a value means only the lemmas below see how it is computed.

  /** `block => this.calculateHash(block)`. */
  function Recompute(sha256: Sha256): Block -> Digest {
    b => CalculateHash(sha256, b)
  }

  /** The digest does not depend on the stored `hash`. */
  ghost predicate IgnoresSeal(hashOf: Block -> Digest) {
    forall b: Block, h: Option<string> {:trigger hashOf(b.(hash := h))} :: hashOf(b.(hash := h)) == hashOf(b)
  }

  lemma RecomputeIgnoresSeal(sha256: Sha256)
    ensures IgnoresSeal(Recompute(sha256))
  {
    forall b: Block, h: Option<string> ensures Recompute(sha256)(b.(hash := h)) == Recompute(sha256)(b) {
      HashIgnoresStoredHash(sha256, b, h);
    }
  }

  /** Two anchored forms of one block have the same digest: only the presence of `onchain`
      counts, not the anchoring data. */
  lemma RecomputeIgnoresAnchorData(sha256: Sha256, b: Block, x: Onchain, y: Onchain)
    ensures Recompute(sha256)(b.(onchain := Some(x))) == Recompute(sha256)(b.(onchain := Some(y)))
  {
    HashInputDeterminedBy(b.(onchain := Some(x)), b.(onchain := Some(y)));
  }

  /** `hash.startsWith("0".repeat(difficulty))`. */
  predicate MeetsDifficulty(hash: string, difficulty: nat) {
    StartsWith(hash, Zeros(difficulty))
  }

  /** A digest has 64 characters, so no digest meets a difficulty above 64: with such a
      difficulty no nonce seals any block and `mineBlock` never returns. */
  lemma NoSealAbove64(hashOf: Block -> Digest, difficulty: nat, block: Block)
    requires difficulty > 64
    ensures !Mineable(hashOf, difficulty, block)
  {
    forall n: nat | block.nonce <= n
      ensures !SealsAt(hashOf, difficulty, block, n)
    {
      var h := hashOf(block.(nonce := n));
      assert |h| == 64 < |Zeros(difficulty)|;
    }
  }

  /** With its nonce set to `nonce`, `block` hashes to a digest that meets `difficulty`. */
  predicate SealsAt(hashOf: Block -> Digest, difficulty: nat, block: Block, nonce: nat) {
    MeetsDifficulty(hashOf(block.(nonce := nonce)), difficulty)
  }

  /** Some nonce at or above the block's own seals it. Without one, `mineBlock` never returns. */
  ghost predicate Mineable(hashOf: Block -> Digest, difficulty: nat, block: Block) {
    exists n: nat :: block.nonce <= n && SealsAt(hashOf, difficulty, block, n)
  }

  /** `sealed` is what `mineBlock` followed by `block.hash = …` makes of `template`: the first
      nonce at or above the template's that seals it, and the digest of the block at that nonce. */
  predicate SealedFrom(hashOf: Block -> Digest, difficulty: nat, template: Block, sealed: Block) {
    template.nonce <= sealed.nonce
    && SealsAt(hashOf, difficulty, template, sealed.nonce)
    && (forall n: nat :: template.nonce <= n < sealed.nonce ==> !SealsAt(hashOf, difficulty, template, n))
    && sealed == template.(nonce := sealed.nonce, hash := Some(hashOf(template.(nonce := sealed.nonce))))
  }

  /** `Math.max(1, difficulty)`. */
  function Clamp(difficulty: int): (r: nat)
    ensures 1 <= r && difficulty <= r
    ensures 1 <= difficulty ==> r == difficulty
    ensures difficulty < 1 ==> r == 1
  {
    if difficulty < 1 then 1 else difficulty
  }

  /** Mining is deterministic: a template has only one sealed form. */
  lemma SealedFromUnique(hashOf: Block -> Digest, difficulty: nat, template: Block, s1: Block, s2: Block)
    requires SealedFrom(hashOf, difficulty, template, s1)
    requires SealedFrom(hashOf, difficulty, template, s2)
    ensures s1 == s2
  {
  }

  /** A freshly sealed block recomputes to its stored hash, and that hash meets the difficulty. */
  lemma SealedBlockChecks(hashOf: Block -> Digest, difficulty: nat, template: Block, sealed: Block)
    requires IgnoresSeal(hashOf)
    requires SealedFrom(hashOf, difficulty, template, sealed)
    ensures HashOk(hashOf, sealed)
    ensures MeetsDifficulty(sealed.hash.value, difficulty)
  {
    assert sealed == template.(nonce := sealed.nonce).(hash := sealed.hash);
  }

  /** The block `createGenesisBlock` builds before mining it. */
  function GenesisTemplate(now: nat): Block {
    Block(0, now, "Genesis Recipe", ["love", "curiosity"], ["Boot the blockchain."], "system",
          Some(GenesisPreviousHash), 0, None, None)
  }

  /** The block `addRecipe` builds on `chain` before mining it. */
  function Candidate(chain: seq<Block>, recipe: Recipe, now: nat): Block
    requires |chain| > 0
  {
    Block(|chain|, now, recipe.title, recipe.ingredients, recipe.steps, recipe.creator,
          chain[|chain| - 1].hash, 0, None, None)
  }

  // ---------------------------------------------------------------------------------------
  // What validation checks

  /** The stored `hash` equals the recomputed one (`block.hash !== recalculated` fails). */
  predicate HashOk(hashOf: Block -> Digest, b: Block) {
    b.hash == Some(hashOf(b))
  }

  /** Block `i` names its predecessor's `hash` as its `previous_hash`; block 0 names nothing. */
  predicate LinkOk(chain: seq<Block>, i: nat)
    requires i < |chain|
  {
    i == 0 || chain[i].previous_hash == chain[i - 1].hash
  }

  predicate BlockSound(hashOf: Block -> Digest, chain: seq<Block>, i: nat)
    requires i < |chain|
  {
    HashOk(hashOf, chain[i]) && LinkOk(chain, i)
  }

  predicate ChainSound(hashOf: Block -> Digest, chain: seq<Block>) {
    forall i :: 0 <= i < |chain| ==> BlockSound(hashOf, chain, i)
  }

  /** The lowest index from `from` on whose block fails a check. */
  function FirstFaultFrom(hashOf: Block -> Digest, chain: seq<Block>, from: nat): (r: Option<nat>)
    requires from <= |chain|
    ensures r.None? <==> forall i :: from <= i < |chain| ==> BlockSound(hashOf, chain, i)
    ensures r.Some? ==> from <= r.value < |chain| && !BlockSound(hashOf, chain, r.value)
    ensures r.Some? ==> forall i :: from <= i < r.value ==> BlockSound(hashOf, chain, i)
    decreases |chain| - from
  {
    if from == |chain| then None
    else if !BlockSound(hashOf, chain, from) then Some(from)
    else FirstFaultFrom(hashOf, chain, from + 1)
  }

  function FirstFault(hashOf: Block -> Digest, chain: seq<Block>): Option<nat> {
    FirstFaultFrom(hashOf, chain, 0)
  }

  /** The message `validateChain` gives for a faulty block: the hash is checked first. */
  function FaultMessage(hashOf: Block -> Digest, chain: seq<Block>, i: nat): string
    requires i < |chain| && !BlockSound(hashOf, chain, i)
  {
    if !HashOk(hashOf, chain[i]) then "Hash mismatch at block " + Dec(i)
    else "Previous hash mismatch between " + Dec(i - 1) + " and " + Dec(i)
  }

  /** The pair `validateChain` returns. */
  function ValidationReport(hashOf: Block -> Digest, chain: seq<Block>): (r: (bool, string))
    ensures r.0 <==> ChainSound(hashOf, chain)
    ensures r.0 ==> r.1 == "Chain is valid"
    ensures !r.0 ==> exists i :: (0 <= i < |chain| && !BlockSound(hashOf, chain, i)
      && (forall j :: 0 <= j < i ==> BlockSound(hashOf, chain, j)) && r.1 == FaultMessage(hashOf, chain, i))
  {
    match FirstFault(hashOf, chain)
    case None => (true, "Chain is valid")
    case Some(i) => (false, FaultMessage(hashOf, chain, i))
  }

  /** The pair `verifyBlock(index)` returns. */
  function VerifyReport(hashOf: Block -> Digest, chain: seq<Block>, index: int): (r: (bool, string))
    ensures r.0 <==> 0 <= index < |chain| && ChainSound(hashOf, chain)
    ensures r.0 ==> r.1 == "Chain is valid"
    ensures !(0 <= index < |chain|) ==> r == (false, "Block not found")
    ensures 0 <= index < |chain| && !HashOk(hashOf, chain[index]) ==> r == (false, "Block hash has been tampered with")
    ensures 0 <= index < |chain| && HashOk(hashOf, chain[index]) ==> r == ValidationReport(hashOf, chain)
  {
    if index < 0 || index >= |chain| then (false, "Block not found")
    else if !HashOk(hashOf, chain[index]) then
      assert !BlockSound(hashOf, chain, index);
      (false, "Block hash has been tampered with")
    else ValidationReport(hashOf, chain)
  }

  /** When the blocks before `i` pass and block `i` does not, validation reports block `i`. */
  lemma FirstFaultIs(hashOf: Block -> Digest, chain: seq<Block>, i: nat)
    requires i < |chain| && !BlockSound(hashOf, chain, i)
    requires forall j :: 0 <= j < i ==> BlockSound(hashOf, chain, j)
    ensures ValidationReport(hashOf, chain) == (false, FaultMessage(hashOf, chain, i))
  {
  }

  /** A block whose stored hash no longer recomputes, behind sound blocks, is reported by index;
      `verifyBlock` reports it as tampered whatever the blocks before it are. */
  lemma TamperedBlockReported(hashOf: Block -> Digest, chain: seq<Block>, i: nat)
    requires i < |chain| && !HashOk(hashOf, chain[i])
    ensures VerifyReport(hashOf, chain, i) == (false, "Block hash has been tampered with")
    ensures (forall j :: 0 <= j < i ==> BlockSound(hashOf, chain, j)) ==>
      ValidationReport(hashOf, chain) == (false, "Hash mismatch at block " + Dec(i))
  {
    if forall j :: 0 <= j < i ==> BlockSound(hashOf, chain, j) {
      FirstFaultIs(hashOf, chain, i);
    }
  }

  // ---------------------------------------------------------------------------------------
  // The invariant of a chain built by genesis and `addRecipe` alone

  predicate WellFormed(hashOf: Block -> Digest, difficulty: nat, chain: seq<Block>) {
    |chain| > 0 &&
    forall i :: 0 <= i < |chain| ==>
      chain[i].index == i && BlockSound(hashOf, chain, i)
      && chain[i].hash.Some? && MeetsDifficulty(chain[i].hash.value, difficulty)
  }

  /** A well-formed chain validates. */
  lemma WellFormedValidates(hashOf: Block -> Digest, difficulty: nat, chain: seq<Block>)
    requires WellFormed(hashOf, difficulty, chain)
    ensures ValidationReport(hashOf, chain) == (true, "Chain is valid")
    ensures forall i :: 0 <= i < |chain| ==> VerifyReport(hashOf, chain, i) == (true, "Chain is valid")
  {
  }

  /** Appending the sealed successor keeps a chain well-formed. */
  lemma AppendKeepsWellFormed(hashOf: Block -> Digest, difficulty: nat, chain: seq<Block>, recipe: Recipe, now: nat, block: Block)
    requires IgnoresSeal(hashOf)
    requires WellFormed(hashOf, difficulty, chain)
    requires SealedFrom(hashOf, difficulty, Candidate(chain, recipe, now), block)
    ensures WellFormed(hashOf, difficulty, chain + [block])
  {
    SealedBlockChecks(hashOf, difficulty, Candidate(chain, recipe, now), block);
    var c := chain + [block];
    forall i | 0 <= i < |c|
      ensures c[i].index == i && BlockSound(hashOf, c, i) && c[i].hash.Some? && MeetsDifficulty(c[i].hash.value, difficulty)
    {
      if i < |chain| {
        assert c[i] == chain[i];
        assert i > 0 ==> c[i - 1] == chain[i - 1];
        assert BlockSound(hashOf, chain, i);
      }
    }
  }

  /** Anchoring block `i` of a well-formed chain, when its recomputed digest then differs from
      the stored one, makes validation fail at exactly that block. */
  lemma AnnotatedBlockReported(hashOf: Block -> Digest, difficulty: nat, chain: seq<Block>, i: nat, data: Onchain)
    requires WellFormed(hashOf, difficulty, chain)
    requires i < |chain|
    requires Some(hashOf(chain[i].(onchain := Some(data)))) != chain[i].hash
    ensures ValidationReport(hashOf, chain[i := chain[i].(onchain := Some(data))])
         == (false, "Hash mismatch at block " + Dec(i))
  {
    var c := chain[i := chain[i].(onchain := Some(data))];
    forall j | 0 <= j < i ensures BlockSound(hashOf, c, j) {
      assert c[j] == chain[j];
      assert j > 0 ==> c[j - 1] == chain[j - 1];
      assert BlockSound(hashOf, chain, j);
    }
    TamperedBlockReported(hashOf, c, i);
  }

  /** Annotating a block of a well-formed chain that carries no anchoring data yet makes
      validation report that block, as long as SHA-256 does not map the block's digest inputs
      before and after the annotation to the same digest. */
  lemma AnnotationBreaksValidation(sha256: Sha256, difficulty: nat, chain: seq<Block>, i: nat, data: Onchain)
    requires WellFormed(Recompute(sha256), difficulty, chain)
    requires i < |chain| && chain[i].onchain.None?
    requires var before, after := HashInput(chain[i]), HashInput(chain[i].(onchain := Some(data)));
      before != after ==> sha256(before) != sha256(after)
    ensures ValidationReport(Recompute(sha256), chain[i := chain[i].(onchain := Some(data))])
         == (false, "Hash mismatch at block " + Dec(i))
  {
    var annotated := chain[i].(onchain := Some(data));
    AnchorChangesHashInput(chain[i], data);
    HashIgnoresStoredHash(sha256, annotated, None);
    HashIgnoresStoredHash(sha256, chain[i], None);
    assert chain[i].hash == Some(Recompute(sha256)(chain[i]));
    AnnotatedBlockReported(Recompute(sha256), difficulty, chain, i, data);
  }

  // ---------------------------------------------------------------------------------------
  // A digest that leaves the anchoring data out

  /** The digest input computed as if the block had no `onchain` property: what lets anchoring
      data be attached after sealing without invalidating the block. */
  function AnchorFreeHashInput(b: Block): (r: string)
    ensures b.onchain.None? ==> r == HashInput(b)
  {
    HashInput(b.(onchain := None))
  }

  function RecomputeAnchorFree(sha256: Sha256): Block -> Digest {
    b => sha256(AnchorFreeHashInput(b))
  }

  /** The digest does not depend on the anchoring data, nor on whether there is any. */
  ghost predicate IgnoresAnchor(hashOf: Block -> Digest) {
    forall b: Block, o: Option<Onchain> {:trigger hashOf(b.(onchain := o))} :: hashOf(b.(onchain := o)) == hashOf(b)
  }

  /** The corrected digest agrees with `calculateHash` on every block that carries no anchoring
      data, so chains stored before the correction keep validating. */
  lemma RecomputeAnchorFreeAgrees(sha256: Sha256, b: Block)
    requires b.onchain.None?
    ensures RecomputeAnchorFree(sha256)(b) == Recompute(sha256)(b)
  {
    assert AnchorFreeHashInput(b) == HashInput(b);
  }

  /** The corrected digest ignores both the stored hash and the anchoring data. */
  lemma RecomputeAnchorFreeIgnoresAnchor(sha256: Sha256)
    ensures IgnoresAnchor(RecomputeAnchorFree(sha256)) && IgnoresSeal(RecomputeAnchorFree(sha256))
  {
    var hashOf := RecomputeAnchorFree(sha256);
    forall b: Block, o: Option<Onchain> ensures hashOf(b.(onchain := o)) == hashOf(b) {
      AnchorFreeIgnoresAnchor(b, o);
    }
    forall b: Block, h: Option<string> ensures hashOf(b.(hash := h)) == hashOf(b) {
      AnchorFreeIgnoresSeal(b, h);
    }
  }

  lemma AnchorFreeIgnoresAnchor(b: Block, o: Option<Onchain>)
    ensures AnchorFreeHashInput(b.(onchain := o)) == AnchorFreeHashInput(b)
  {
    assert b.(onchain := o).(onchain := None) == b.(onchain := None);
  }

  lemma AnchorFreeIgnoresSeal(b: Block, h: Option<string>)
    ensures AnchorFreeHashInput(b.(hash := h)) == AnchorFreeHashInput(b)
  {
    HashInputIgnoresSeal(b.(onchain := None));
    HashInputIgnoresSeal(b.(hash := h).(onchain := None));
    assert b.(hash := h).(onchain := None).(hash := None) == b.(onchain := None).(hash := None);
  }

  /** Under a digest that ignores the anchoring data, annotating any block of a well-formed
      chain leaves it well formed. */
  lemma AnnotationKeepsWellFormed(hashOf: Block -> Digest, difficulty: nat, chain: seq<Block>, i: nat, data: Onchain)
    requires WellFormed(hashOf, difficulty, chain) && IgnoresAnchor(hashOf)
    requires i < |chain|
    ensures WellFormed(hashOf, difficulty, chain[i := chain[i].(onchain := Some(data))])
  {
    var c := chain[i := chain[i].(onchain := Some(data))];
    forall j | 0 <= j < |c|
      ensures c[j].index == j && BlockSound(hashOf, c, j) && c[j].hash.Some? && MeetsDifficulty(c[j].hash.value, difficulty)
    {
      assert BlockSound(hashOf, chain, j);
      assert hashOf(chain[j].(onchain := Some(data))) == hashOf(chain[j]);
      assert j > 0 ==> c[j - 1].hash == chain[j - 1].hash;
    }
  }

  // ---------------------------------------------------------------------------------------
  // The ledger

  /** The parsed storage file is adopted when it is a non-empty array. */
  predicate Adoptable(stored: Option<seq<Block>>) {
    stored.Some? && |stored.value| > 0
  }

  /** `RecipeBlockchain`: the chain, its storage location and its difficulty. `persisted` is
      what the storage file holds; `calculateHash` is `Recompute(sha256)` for the SHA-256 the
      ledger is built with. */
  class RecipeBlockchain {
    const storagePath: string
    const difficulty: nat
    const calculateHash: Block -> Digest
    var chain: seq<Block>
    ghost var persisted: seq<Block>

    ghost predicate Valid()
      reads this
    {
      1 <= difficulty && IgnoresSeal(calculateHash) && |chain| > 0 && persisted == chain
    }

    /** `new RecipeBlockchain(storagePath, difficulty)`. `stored` is the parse of the storage
        file (`None` when it is missing, unreadable, not JSON or not an array); `now` is
        `Date.now()` in case a genesis block is needed. */
    constructor (storagePath: string, difficulty: int, sha256: Sha256, stored: Option<seq<Block>>, now: nat)
      requires !Adoptable(stored) ==> Mineable(Recompute(sha256), Clamp(difficulty), GenesisTemplate(now))
      ensures this.storagePath == storagePath && this.difficulty == Clamp(difficulty)
      ensures calculateHash == Recompute(sha256)
      ensures Valid()
      ensures Adoptable(stored) ==> chain == stored.value
      ensures !Adoptable(stored) ==> |chain| == 1 && SealedFrom(calculateHash, this.difficulty, GenesisTemplate(now), chain[0])
      ensures !Adoptable(stored) ==> WellFormed(calculateHash, this.difficulty, chain)
    {
      this.storagePath := storagePath;
      this.difficulty := Clamp(difficulty);
      this.calculateHash := Recompute(sha256);
      RecomputeIgnoresSeal(sha256);
      chain := [];
      persisted := [];
      new;
      LoadChain(stored, now);
    }

    /** `loadChain`: adopt a non-empty stored array verbatim, otherwise start over from a
        mined genesis block and persist it. */
    method LoadChain(stored: Option<seq<Block>>, now: nat)
      requires 1 <= difficulty && IgnoresSeal(calculateHash)
      requires !Adoptable(stored) ==> Mineable(calculateHash, difficulty, GenesisTemplate(now))
      modifies this`chain, this`persisted
      ensures Valid()
      ensures Adoptable(stored) ==> chain == stored.value
      ensures !Adoptable(stored) ==> |chain| == 1 && SealedFrom(calculateHash, difficulty, GenesisTemplate(now), chain[0])
      ensures !Adoptable(stored) ==> WellFormed(calculateHash, difficulty, chain)
    {
      if stored.Some? && |stored.value| > 0 {
        chain := stored.value;
        persisted := stored.value;  // the file already holds what was read from it
        return;
      }
      var genesis := CreateGenesisBlock(now);
      chain := [genesis];
      persisted := chain;
      SealedBlockChecks(calculateHash, difficulty, GenesisTemplate(now), genesis);
    }

    /** `createGenesisBlock`. */
    method CreateGenesisBlock(now: nat) returns (block: Block)
      requires IgnoresSeal(calculateHash)
      requires Mineable(calculateHash, difficulty, GenesisTemplate(now))
      ensures SealedFrom(calculateHash, difficulty, GenesisTemplate(now), block)
      ensures block.index == 0 && block.previous_hash == Some(GenesisPreviousHash)
      ensures HashOk(calculateHash, block) && MeetsDifficulty(block.hash.value, difficulty)
    {
      var template := GenesisTemplate(now);
      var nonce, hash := MineBlock(template);
      block := template.(nonce := nonce, hash := Some(hash));
      SealedBlockChecks(calculateHash, difficulty, template, block);
    }

    /** `mineBlock(block)`: scan the nonce upward from the block's own until the digest meets
        the difficulty. Returns the nonce the block is left with and the digest. */
    method MineBlock(block: Block) returns (nonce: nat, hash: Digest)
      requires Mineable(calculateHash, difficulty, block)
      ensures block.nonce <= nonce
      ensures hash == calculateHash(block.(nonce := nonce))
      ensures MeetsDifficulty(hash, difficulty)
      ensures forall n: nat :: block.nonce <= n < nonce ==> !SealsAt(calculateHash, difficulty, block, n)
    {
      ghost var target: nat :| block.nonce <= target && SealsAt(calculateHash, difficulty, block, target);
      var prefix := Zeros(difficulty);
      nonce := block.nonce;
      while true
        invariant block.nonce <= nonce <= target
        invariant forall n: nat :: block.nonce <= n < nonce ==> !SealsAt(calculateHash, difficulty, block, n)
        decreases target - nonce
      {
        hash := calculateHash(block.(nonce := nonce));
        if StartsWith(hash, prefix) {
          return;
        }
        nonce := nonce + 1;
      }
    }

    /** `addRecipe(recipe)` at time `now`. */
    method AddRecipe(recipe: Recipe, now: nat) returns (block: Block)
      requires Valid()
      requires Mineable(calculateHash, difficulty, Candidate(chain, recipe, now))
      modifies this`chain, this`persisted
      ensures Valid()
      ensures chain == old(chain) + [block]
      ensures block.index == |old(chain)| && block.previous_hash == old(chain)[|old(chain)| - 1].hash
      ensures SealedFrom(calculateHash, difficulty, Candidate(old(chain), recipe, now), block)
      ensures HashOk(calculateHash, block) && MeetsDifficulty(block.hash.value, difficulty)
      ensures old(WellFormed(calculateHash, difficulty, chain)) ==> WellFormed(calculateHash, difficulty, chain)
    {
      var template := Candidate(chain, recipe, now);
      var nonce, hash := MineBlock(template);
      block := template.(nonce := nonce, hash := Some(hash));
      SealedBlockChecks(calculateHash, difficulty, template, block);
      if WellFormed(calculateHash, difficulty, chain) {
        AppendKeepsWellFormed(calculateHash, difficulty, chain, recipe, now, block);
      }
      chain := chain + [block];
      persisted := chain;
    }

    /** `setOnchainData(index, data)`: the error is the message of the exception thrown.
        The last ensures is conditional on a digest that ignores `onchain`. The ledger's own
        digest `Recompute(sha256)` is not one for any collision-free `sha256`
        (`AnchorChangesHashInput`), so for the ledger as built that clause promises nothing:
        annotation can break the chain (`AnnotationBreaksValidation`). */
    method SetOnchainData(index: int, data: Onchain) returns (r: Result<Block, string>)
      requires Valid()
      modifies this`chain, this`persisted
      ensures Valid()
      ensures !(0 <= index < |old(chain)|) ==>
        r == Err("Block " + IntText(index) + " not found") && chain == old(chain) && persisted == old(persisted)
      ensures 0 <= index < |old(chain)| ==>
        chain == old(chain)[index := old(chain)[index].(onchain := Some(data))] && r == Ok(chain[index])
      ensures 0 <= index < |old(chain)| ==> chain[index].hash == old(chain)[index].hash
      ensures old(WellFormed(calculateHash, difficulty, chain)) && IgnoresAnchor(calculateHash) ==>
        WellFormed(calculateHash, difficulty, chain)
    {
      if index < 0 || index >= |chain| {
        return Err("Block " + IntText(index) + " not found");
      }
      var block := chain[index].(onchain := Some(data));
      if WellFormed(calculateHash, difficulty, chain) && IgnoresAnchor(calculateHash) {
        AnnotationKeepsWellFormed(calculateHash, difficulty, chain, index, data);
      }
      chain := chain[index := block];
      persisted := chain;
      return Ok(block);
    }

    /** `validateChain`. */
    method ValidateChain() returns (valid: bool, message: string)
      ensures (valid, message) == ValidationReport(calculateHash, chain)
    {
      for i := 0 to |chain|
        invariant forall j :: 0 <= j < i ==> BlockSound(calculateHash, chain, j)
      {
        var block := chain[i];
        var recalculated := calculateHash(block);
        if block.hash != Some(recalculated) {
          FirstFaultIs(calculateHash, chain, i);
          return false, "Hash mismatch at block " + Dec(i);
        }
        if i == 0 {
          continue;
        }
        var prev := chain[i - 1];
        if block.previous_hash != prev.hash {
          FirstFaultIs(calculateHash, chain, i);
          return false, "Previous hash mismatch between " + Dec(i - 1) + " and " + Dec(i);
        }
      }
      return true, "Chain is valid";
    }

    /** `verifyBlock(index)`. */
    method VerifyBlock(index: int) returns (valid: bool, message: string)
      ensures (valid, message) == VerifyReport(calculateHash, chain, index)
    {
      if index < 0 || index >= |chain| {
        return false, "Block not found";
      }
      var block := chain[index];
      var recalculated := calculateHash(block);
      if block.hash != Some(recalculated) {
        return false, "Block hash has been tampered with";
      }
      valid, message := ValidateChain();
    }

    /** `toJSON`: the chain itself. */
    method ToJSON() returns (blocks: seq<Block>)
      ensures blocks == chain
    {
      blocks := chain;
    }
  }

  /** A ledger started from an empty store and grown by `addRecipe` alone validates. */
  method BuildAndValidate(storagePath: string, difficulty: int, sha256: Sha256, start: nat, recipes: seq<Recipe>, times: seq<nat>)
    returns (valid: bool, message: string)
    requires |times| == |recipes|
    requires forall b: Block :: Mineable(Recompute(sha256), Clamp(difficulty), b)
    ensures valid && message == "Chain is valid"
  {
    var ledger := new RecipeBlockchain(storagePath, difficulty, sha256, None, start);
    for i := 0 to |recipes|
      invariant ledger.Valid() && ledger.calculateHash == Recompute(sha256) && ledger.difficulty == Clamp(difficulty)
      invariant WellFormed(ledger.calculateHash, ledger.difficulty, ledger.chain)
    {
      var _ := ledger.AddRecipe(recipes[i], times[i]);
    }
    valid, message := ledger.ValidateChain();
    WellFormedValidates(ledger.calculateHash, ledger.difficulty, ledger.chain);
  }
}
