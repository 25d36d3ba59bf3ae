/**
 * The pure parts of the HTTP server: the check and clean-up of a POST body before it reaches
 * `addRecipe`, the fingerprint sent along when a block is anchored, and the mapping from a
 * validation result to the reply of the verify and validate routes.
 */
module Server {
  import opened Common
  import opened JsText
  import opened Json
  import opened Blockchain

  // ---------------------------------------------------------------------------------------
  // POST /api/recipes: the body check

  /** Why a POST body is refused. The first two answer with status 400; `Threw` is the 500
      reply of the handler's `catch`, reached when `String(item)` throws. */
  datatype Rejection = MissingFields | EmptyFields | Threw

  function RejectionMessage(e: Rejection): string {
    match e
    case MissingFields => "Missing required fields"
    case EmptyFields => "All fields must be non-empty"
    case Threw => "Internal server error"
  }

  function RejectionStatus(e: Rejection): int {
    if e.Threw? then 500 else 400
  }

  /** `(req.body || {})[key]`: `None` when the body is not an object or lacks the key. */
  function Field(body: Option<Value>, key: string): Option<Value> {
    if body.Some? && body.value.Obj? then Lookup(body.value.members, key) else None
  }

  /** `String(v)` throws a TypeError. Parsed JSON has no callable properties, so an object with
      an own `toString` key gets no primitive from OrdinaryToPrimitive: that `toString` is
      skipped and the inherited `valueOf` returns the object itself. An array throws when
      `join` stringifies an element that throws. */
  predicate StringThrows(v: Value) {
    match v
    case Obj(ms) => "toString" in KeysOf(ms)
    case Arr(items) => exists i :: 0 <= i < |items| && StringThrows(items[i])
    case _ => false
  }

  /** `String(item)`, `None` when it throws: array elements are joined by commas, `null` inside
      an array prints as nothing, and any other object prints as `[object Object]`. */
  function ToJsString(v: Value): (r: Option<string>)
    ensures r.None? <==> StringThrows(v)
    ensures v.Null? ==> r == Some("null")
    ensures v.Bool? ==> r == Some(if v.b then "true" else "false")
    ensures v.Num? ==> r == Some(v.text)
    ensures v.Str? ==> r == Some(v.s)
    ensures v.Obj? && !StringThrows(v) ==> r == Some("[object Object]")
    ensures v.Arr? && v.items == [] ==> r == Some("")
    ensures v.Arr? && |v.items| == 1 && v.items[0].Str? ==> r == Some(v.items[0].s)
  {
    match v
    case Null => Some("null")
    case Bool(b) => Some(if b then "true" else "false")
    case Num(t) => Some(t)
    case Str(s) => Some(s)
    case Arr(items) =>
      if exists i :: 0 <= i < |items| && ToJsString(items[i]).None? then None
      else Some(Join(",", seq(|items|, i requires 0 <= i < |items| => if items[i].Null? then "" else ToJsString(items[i]).value)))
    case Obj(ms) => if "toString" in KeysOf(ms) then None else Some("[object Object]")
  }

  /** `items.map((item) => String(item).trim()).filter(Boolean)`, `None` when an item throws. */
  function CleanItems(items: seq<Value>): (r: Option<seq<string>>)
    ensures r.None? <==> exists i :: 0 <= i < |items| && StringThrows(items[i])
    ensures r.Some? ==> |r.value| <= |items|
    ensures r.Some? ==> forall k :: 0 <= k < |r.value| ==> r.value[k] != [] && IsTrimmed(r.value[k])
  {
    if exists i :: 0 <= i < |items| && ToJsString(items[i]).None? then None
    else Some(Tidy(Texts(items)))
  }

  /** `String(item)` of each item, for items that do not throw. */
  function Texts(items: seq<Value>): (r: seq<string>)
    requires forall i :: 0 <= i < |items| ==> !StringThrows(items[i])
    ensures |r| == |items| && forall i :: 0 <= i < |items| ==> Some(r[i]) == ToJsString(items[i])
  {
    seq(|items|, i requires 0 <= i < |items| => ToJsString(items[i]).value)
  }

  /** An array of strings prints as those strings joined by commas. */
  lemma ToJsStringOfStrings(xs: seq<string>)
    ensures ToJsString(StrArray(xs)) == Some(Join(",", xs))
  {
    var items := StrArray(xs).items;
    assert forall i :: 0 <= i < |items| ==> ToJsString(items[i]) == Some(xs[i]);
    assert seq(|items|, i requires 0 <= i < |items| => if items[i].Null? then "" else ToJsString(items[i]).value) == xs;
  }

  /** One item becomes its trimmed text, or nothing when that is blank; `None` when it throws. */
  lemma CleanItemsOne(v: Value)
    ensures CleanItems([v]) == if StringThrows(v) then None else Some(Tidy([ToJsString(v).value]))
  {
    if !StringThrows(v) {
      assert Texts([v]) == [ToJsString(v).value];
    }
  }

  /** Cleaning works item by item across a concatenation, keeping the order; it throws when
      either part does. */
  lemma CleanItemsAppend(a: seq<Value>, b: seq<Value>)
    ensures CleanItems(a + b) == if CleanItems(a).None? || CleanItems(b).None? then None
      else Some(CleanItems(a).value + CleanItems(b).value)
  {
    if CleanItems(a).None? {
      var i :| 0 <= i < |a| && StringThrows(a[i]);
      assert (a + b)[i] == a[i];
    } else if CleanItems(b).None? {
      var i :| 0 <= i < |b| && StringThrows(b[i]);
      assert (a + b)[|a| + i] == b[i];
    } else {
      TextsAppend(a, b);
      TidyAppend(Texts(a), Texts(b));
    }
  }

  lemma TextsAppend(a: seq<Value>, b: seq<Value>)
    requires forall i :: 0 <= i < |a| ==> !StringThrows(a[i])
    requires forall i :: 0 <= i < |b| ==> !StringThrows(b[i])
    ensures forall i :: 0 <= i < |a + b| ==> !StringThrows((a + b)[i])
    ensures Texts(a + b) == Texts(a) + Texts(b)
  {
    var ab := a + b;
    forall i | 0 <= i < |ab|
      ensures !StringThrows(ab[i]) && Some((Texts(a) + Texts(b))[i]) == ToJsString(ab[i])
    {
      if i < |a| {
        assert ab[i] == a[i];
      } else {
        assert ab[i] == b[i - |a|];
      }
    }
  }

  /** An array of strings cleans to the trims of its non-blank strings, in order. */
  lemma CleanItemsOfStrArray(xs: seq<string>)
    ensures CleanItems(StrArray(xs).items) == Some(Tidy(xs))
  {
    var items := StrArray(xs).items;
    assert forall i :: 0 <= i < |items| ==> ToJsString(items[i]) == Some(xs[i]);
    assert Texts(items) == xs;
  }

  /** What `addRecipe` may be handed: trimmed non-empty title and creator, and non-empty lists
      of trimmed non-empty items. */
  predicate CleanList(xs: seq<string>) {
    |xs| > 0 && forall i :: 0 <= i < |xs| ==> xs[i] != [] && IsTrimmed(xs[i])
  }

  predicate Clean(r: Recipe) {
    r.title != [] && IsTrimmed(r.title) && r.creator != [] && IsTrimmed(r.creator)
    && CleanList(r.ingredients) && CleanList(r.steps)
  }

  /** `title` and `creator` are strings and `ingredients` and `steps` non-empty arrays. */
  predicate WellTyped(body: Option<Value>) {
    var title, ingredients, steps, creator :=
      Field(body, "title"), Field(body, "ingredients"), Field(body, "steps"), Field(body, "creator");
    title.Some? && title.value.Str?
    && ingredients.Some? && ingredients.value.Arr? && |ingredients.value.items| > 0
    && steps.Some? && steps.value.Arr? && |steps.value.items| > 0
    && creator.Some? && creator.value.Str?
  }

  /** The handler of POST /api/recipes up to the call of `addRecipe`: the recipe passed on,
      or the reason the body is refused. */
  function Sanitize(body: Option<Value>): (r: Result<Recipe, Rejection>)
    ensures r == Err(MissingFields) <==> !WellTyped(body)
    ensures r == Err(Threw) <==> (WellTyped(body)
      && (CleanItems(Field(body, "ingredients").value.items).None? || CleanItems(Field(body, "steps").value.items).None?))
    ensures r.Ok? ==> Clean(r.value)
    ensures r.Ok? ==> (r.value.title == Trim(Field(body, "title").value.s)
      && r.value.creator == Trim(Field(body, "creator").value.s)
      && Some(r.value.ingredients) == CleanItems(Field(body, "ingredients").value.items)
      && Some(r.value.steps) == CleanItems(Field(body, "steps").value.items))
    ensures WellTyped(body) && Trim(Field(body, "title").value.s) != [] && Trim(Field(body, "creator").value.s) != []
      && CleanItems(Field(body, "ingredients").value.items) != None && CleanItems(Field(body, "ingredients").value.items) != Some([])
      && CleanItems(Field(body, "steps").value.items) != None && CleanItems(Field(body, "steps").value.items) != Some([])
      ==> r.Ok?
  {
    if !WellTyped(body) then Err(MissingFields)
    else
      var ingredients := CleanItems(Field(body, "ingredients").value.items);
      var steps := CleanItems(Field(body, "steps").value.items);
      if ingredients.None? || steps.None? then Err(Threw)
      else
        var sanitized := Recipe(
          Trim(Field(body, "title").value.s),
          ingredients.value,
          steps.value,
          Trim(Field(body, "creator").value.s));
        if sanitized.title == [] || sanitized.creator == [] || |sanitized.ingredients| == 0 || |sanitized.steps| == 0
        then Err(EmptyFields)
        else Ok(sanitized)
  }

  /** The JSON object a client sends for a recipe. */
  function Body(r: Recipe): Value {
    Obj([ Member("title", Str(r.title)),
          Member("ingredients", StrArray(r.ingredients)),
          Member("steps", StrArray(r.steps)),
          Member("creator", Str(r.creator)) ])
  }

  lemma CleanItemsOfStrings(xs: seq<string>)
    requires forall i :: 0 <= i < |xs| ==> xs[i] != [] && IsTrimmed(xs[i])
    ensures CleanItems(StrArray(xs).items) == Some(xs)
  {
    CleanItemsOfStrArray(xs);
    TidyKeepsCleanPieces(xs);
  }

  lemma BodyFields(r: Recipe)
    ensures Field(Some(Body(r)), "title") == Some(Str(r.title))
    ensures Field(Some(Body(r)), "ingredients") == Some(StrArray(r.ingredients))
    ensures Field(Some(Body(r)), "steps") == Some(StrArray(r.steps))
    ensures Field(Some(Body(r)), "creator") == Some(Str(r.creator))
  {
    var ms := Body(r).members;
    assert UniqueKeys(ms);
    LookupFindsMember(ms, "title", Str(r.title));
    LookupFindsMember(ms, "ingredients", StrArray(r.ingredients));
    LookupFindsMember(ms, "steps", StrArray(r.steps));
    LookupFindsMember(ms, "creator", Str(r.creator));
  }

  /** A clean recipe sent as a body comes through the check unchanged. */
  lemma CleanBodyAccepted(r: Recipe)
    requires Clean(r)
    ensures Sanitize(Some(Body(r))) == Ok(r)
  {
    BodyFields(r);
    CleanItemsOfStrings(r.ingredients);
    CleanItemsOfStrings(r.steps);
    assert WellTyped(Some(Body(r)));
  }

  /** An ingredient object with its own `toString` key, even one nested in an array, makes
      `String(item)` throw, and the handler answers 500 without reaching `addRecipe`. */
  lemma OwnToStringThrows(nested: bool)
    ensures var item := Obj([Member("toString", Num("1"))]);
      var body := Obj([ Member("title", Str("Soup")),
                        Member("ingredients", Arr([if nested then Arr([Str("salt"), item]) else item])),
                        Member("steps", Arr([Str("Boil")])),
                        Member("creator", Str("Ana")) ]);
      Sanitize(Some(body)) == Err(Threw) && RejectionStatus(Threw) == 500
  {
    var item := Obj([Member("toString", Num("1"))]);
    var ingredient := if nested then Arr([Str("salt"), item]) else item;
    assert KeysOf(item.members)[0] == "toString";
    assert StringThrows(ingredient) by {
      if nested {
        assert Arr([Str("salt"), item]).items[1] == item;
      }
    }
    assert [ingredient][0] == ingredient;
    assert CleanItems([ingredient]).None?;
    SoupFields(Arr([ingredient]));
    var body := Some(Obj([ Member("title", Str("Soup")),
                           Member("ingredients", Arr([ingredient])),
                           Member("steps", Arr([Str("Boil")])),
                           Member("creator", Str("Ana")) ]));
    assert Field(body, "ingredients") == Some(Arr([ingredient]));
    assert WellTyped(body);
  }

  /** The fields of the body `OwnToStringThrows` posts, with any ingredients. */
  lemma SoupFields(ingredients: Value)
    ensures var ms := [ Member("title", Str("Soup")),
                        Member("ingredients", ingredients),
                        Member("steps", Arr([Str("Boil")])),
                        Member("creator", Str("Ana")) ];
      Lookup(ms, "title") == Some(Str("Soup")) && Lookup(ms, "ingredients") == Some(ingredients)
      && Lookup(ms, "steps") == Some(Arr([Str("Boil")])) && Lookup(ms, "creator") == Some(Str("Ana"))
  {
    var ms := [ Member("title", Str("Soup")),
                Member("ingredients", ingredients),
                Member("steps", Arr([Str("Boil")])),
                Member("creator", Str("Ana")) ];
    assert UniqueKeys(ms);
    LookupFindsMember(ms, "title", Str("Soup"));
    LookupFindsMember(ms, "ingredients", ingredients);
    LookupFindsMember(ms, "steps", Arr([Str("Boil")]));
    LookupFindsMember(ms, "creator", Str("Ana"));
  }

  /** Only what the check lets through reaches the ledger: sanitising an accepted recipe's own
      body again gives it back. */
  lemma SanitizeIdempotent(body: Option<Value>)
    requires Sanitize(body).Ok?
    ensures Sanitize(Some(Body(Sanitize(body).value))) == Sanitize(body)
  {
    CleanBodyAccepted(Sanitize(body).value);
  }

  // ---------------------------------------------------------------------------------------
  // fingerprintRecipe

  /** The object `fingerprintRecipe` serialises: eight of the block's fields, in this order,
      with an absent `previous_hash` or `hash` left out. */
  function FingerprintObject(b: Block): (r: Value)
    ensures r.Obj? && "nonce" !in KeysOf(r.members) && "onchain" !in KeysOf(r.members)
    ensures KeysOf(r.members) == ["index", "title", "ingredients", "steps", "creator", "timestamp"]
      + (if b.previous_hash.Some? then ["previous_hash"] else []) + (if b.hash.Some? then ["hash"] else [])
  {
    KeysOfAppend(FingerprintFields(b), FingerprintLinks(b));
    Obj(FingerprintFields(b) + FingerprintLinks(b))
  }

  /** The six fields the fingerprint always prints. */
  function FingerprintFields(b: Block): (r: seq<Member>)
    ensures KeysOf(r) == ["index", "title", "ingredients", "steps", "creator", "timestamp"]
    ensures "nonce" !in KeysOf(r) && "onchain" !in KeysOf(r)
  {
    [ Member("index", Num(Dec(b.index))),
      Member("title", Str(b.title)),
      Member("ingredients", StrArray(b.ingredients)),
      Member("steps", StrArray(b.steps)),
      Member("creator", Str(b.creator)),
      Member("timestamp", Num(TimestampText(b.timestamp))) ]
  }

  /** The two links, each printed only when present. */
  function FingerprintLinks(b: Block): (r: seq<Member>)
    ensures KeysOf(r) == (if b.previous_hash.Some? then ["previous_hash"] else [])
      + (if b.hash.Some? then ["hash"] else [])
    ensures "nonce" !in KeysOf(r) && "onchain" !in KeysOf(r)
  {
    KeysOfAppend(Present("previous_hash", b.previous_hash), Present("hash", b.hash));
    Present("previous_hash", b.previous_hash) + Present("hash", b.hash)
  }

  /** Every property the fingerprint prints reads as on the block itself. */
  lemma FingerprintShowsBlockFields(b: Block)
    ensures forall k :: k in KeysOf(FingerprintObject(b).members) ==>
      Lookup(FingerprintObject(b).members, k) == Lookup(Members(b), k)
  {
    forall k | k in KeysOf(FingerprintObject(b).members)
      ensures Lookup(FingerprintObject(b).members, k) == Lookup(Members(b), k)
    {
      FingerprintField(b, k);
    }
  }

  lemma FingerprintField(b: Block, k: string)
    requires k in KeysOf(FingerprintObject(b).members)
    ensures Lookup(FingerprintObject(b).members, k) == Lookup(Members(b), k)
  {
    var fp := FingerprintObject(b).members;
    var v := Lookup(fp, k).value;
    FingerprintUnique(b);
    MembersUnique(b);
    FingerprintMembersInBlock(b);
    LookupFindsMember(fp, k, v);
    LookupFindsMember(Members(b), k, v);
  }

  lemma FingerprintUnique(b: Block)
    ensures UniqueKeys(FingerprintObject(b).members)
  {
    FingerprintNamesUnique(FingerprintObject(b).members, b.previous_hash.Some?, b.hash.Some?);
  }

  lemma MembersUnique(b: Block)
    ensures UniqueKeys(Members(b))
  {
    MemberKeys(b);
    BlockNamesDistinct(b.previous_hash.Some?, b.hash.Some?, b.onchain.Some?);
    UniqueByKeys(Members(b));
  }

  /** The property names the fingerprint prints are distinct. */
  lemma FingerprintNamesDistinct(p: bool, h: bool)
    ensures var fk := ["index", "title", "ingredients", "steps", "creator", "timestamp"]
        + (if p then ["previous_hash"] else []) + (if h then ["hash"] else []);
      forall i, j :: 0 <= j < i < |fk| ==> fk[j] != fk[i]
  {
  }

  lemma FingerprintNamesUnique(ms: seq<Member>, p: bool, h: bool)
    requires KeysOf(ms) == ["index", "title", "ingredients", "steps", "creator", "timestamp"]
      + (if p then ["previous_hash"] else []) + (if h then ["hash"] else [])
    ensures UniqueKeys(ms)
  {
    FingerprintNamesDistinct(p, h);
    UniqueByKeys(ms);
  }

  /** The property names of a block are distinct. */
  lemma BlockNamesDistinct(p: bool, h: bool, o: bool)
    ensures var mk := ["index", "timestamp", "title", "ingredients", "steps", "creator"]
        + (if p then ["previous_hash"] else []) + ["nonce"]
        + (if h then ["hash"] else []) + (if o then ["onchain"] else []);
      forall i, j :: 0 <= j < i < |mk| ==> mk[j] != mk[i]
  {
  }

  /** Distinct names make an object's members unique by name. */
  lemma UniqueByKeys(ms: seq<Member>)
    requires forall i, j :: 0 <= j < i < |KeysOf(ms)| ==> KeysOf(ms)[j] != KeysOf(ms)[i]
    ensures UniqueKeys(ms)
  {
    forall i, j | 0 <= i < j < |ms| ensures ms[i].key != ms[j].key {
      assert KeysOf(ms)[i] == ms[i].key && KeysOf(ms)[j] == ms[j].key;
    }
  }

  /** Each member the fingerprint prints is a member of the block as it stands. */
  lemma FingerprintMembersInBlock(b: Block)
    ensures forall m :: m in FingerprintObject(b).members ==> m in Members(b)
  {
    var fp := FingerprintObject(b).members;
    var fm := FieldMembers(b);
    var mb := Members(b);
    assert mb == fm + Present("hash", b.hash) + OnchainMember(b);
    forall m | m in fp ensures m in mb {
      var i :| 0 <= i < |fp| && fp[i] == m;
      if i < 6 {
        assert fp[i] in fm;
      } else if i == 6 && b.previous_hash.Some? {
        assert fp[i] == fm[6];
      } else {
        assert m in Present("hash", b.hash);
      }
    }
  }

  /** The names of a block's members, spelt out. */
  lemma MemberKeys(b: Block)
    ensures KeysOf(Members(b)) == ["index", "timestamp", "title", "ingredients", "steps", "creator"]
      + (if b.previous_hash.Some? then ["previous_hash"] else []) + ["nonce"]
      + (if b.hash.Some? then ["hash"] else []) + (if b.onchain.Some? then ["onchain"] else [])
  {
    KeysOfMembers(b);
    var six := [ Member("index", Num(Dec(b.index))),
                 Member("timestamp", Num(TimestampText(b.timestamp))),
                 Member("title", Str(b.title)),
                 Member("ingredients", StrArray(b.ingredients)),
                 Member("steps", StrArray(b.steps)),
                 Member("creator", Str(b.creator)) ];
    KeysOfAppend(six + Present("previous_hash", b.previous_hash), [Member("nonce", Num(Dec(b.nonce)))]);
    KeysOfAppend(six, Present("previous_hash", b.previous_hash));
  }

  /** `fingerprintRecipe(block)`: `0x` and the hex SHA-256 of the object above printed with a
      two-space indent. */
  function Fingerprint(sha256: Sha256, b: Block): (r: string)
    ensures |r| == 66 && r[..2] == "0x"
    ensures forall i :: 2 <= i < 66 ==> IsLowerHex(r[i])
  {
    "0x" + sha256(Stringify(FingerprintObject(b), None, "  "))
  }

  /** The fingerprint reads only those eight fields: the nonce and the anchoring data do not
      reach it. */
  lemma FingerprintIgnoresNonceAndAnchor(sha256: Sha256, b: Block, nonce: nat, onchain: Option<Onchain>)
    ensures Fingerprint(sha256, b.(nonce := nonce, onchain := onchain)) == Fingerprint(sha256, b)
  {
  }

  // ---------------------------------------------------------------------------------------
  // GET /api/recipes/:index/verify and GET /api/chain/validate

  /** Status and JSON body of a reply. */
  datatype Reply = Reply(status: nat, valid: bool, message: string)

  /** `res.status(valid ? 200 : 400).json({ valid, message })`. */
  function ReportReply(report: (bool, string)): (r: Reply)
    ensures r.valid == report.0 && r.message == report.1
    ensures r.status == 200 <==> report.0
    ensures r.status == 400 <==> !report.0
  {
    Reply(if report.0 then 200 else 400, report.0, report.1)
  }

  /** The verify route. `param` is `Number(req.params.index)`: `None` for NaN, otherwise the
      integer; `hashOf` is the ledger's `calculateHash`. */
  function VerifyRoute(hashOf: Block -> Digest, chain: seq<Block>, param: Option<int>): (r: Reply)
    ensures param.None? ==> r == Reply(400, false, "Invalid index")
    ensures r.status == 200 <==> r.valid
    ensures r.status == 400 <==> !r.valid
    ensures r.valid <==> param.Some? && 0 <= param.value < |chain| && ChainSound(hashOf, chain)
    ensures param.Some? ==> (r.valid, r.message) == VerifyReport(hashOf, chain, param.value)
  {
    if param.None? then Reply(400, false, "Invalid index")
    else ReportReply(VerifyReport(hashOf, chain, param.value))
  }

  /** The validate route. */
  function ValidateRoute(hashOf: Block -> Digest, chain: seq<Block>): (r: Reply)
    ensures r.status == 200 <==> r.valid
    ensures r.status == 400 <==> !r.valid
    ensures r.valid <==> ChainSound(hashOf, chain)
    ensures (r.valid, r.message) == ValidationReport(hashOf, chain)
  {
    ReportReply(ValidationReport(hashOf, chain))
  }
}
