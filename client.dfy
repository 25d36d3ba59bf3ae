/**
 * The pure helpers of the React client: splitting the ingredient and step text boxes into
 * lists, the check made before a recipe is submitted, and the search filter over the
 * recipes shown.
 */
module Client {
  import opened Common
  import opened JsText
  import Json
  import opened Blockchain
  import Server

  // ---------------------------------------------------------------------------------------
  // Splitting text on line breaks, and on commas for ingredients

  /** `c` is a one-character separator: a line feed, or a comma when commas separate too. */
  predicate IsSeparator(c: char, commas: bool) {
    c == '\n' || (commas && c == ',')
  }

  /** No separator occurs in `s` (a `\r\n` pair contains a line feed, so none of those either). */
  predicate NoSeparator(s: string, commas: bool) {
    forall i :: 0 <= i < |s| ==> !IsSeparator(s[i], commas)
  }

  /** `s.split(/\r?\n/)` (commas false) or `s.split(/\r?\n|,/)` (commas true): the pieces
      between the leftmost matches, where a `\r` counts as part of the match only when a line
      feed follows it. */
  function Split(s: string, commas: bool): (r: seq<string>)
    ensures |r| >= 1
  {
    if s == [] then [""]
    else if IsSeparator(s[0], commas) then [""] + Split(s[1..], commas)
    else if |s| >= 2 && s[0] == '\r' && s[1] == '\n' then [""] + Split(s[2..], commas)
    else
      var rest := Split(s[1..], commas);
      [[s[0]] + rest[0]] + rest[1..]
  }

  /** Text without a separator is one piece. */
  lemma {:induction false} SplitWhole(s: string, commas: bool)
    requires NoSeparator(s, commas)
    ensures Split(s, commas) == [s]
  {
    if s != [] {
      SplitWhole(s[1..], commas);
      assert [s[0]] + s[1..] == s;
    }
  }

  /** A separator character after a piece without separators ends that piece; a line feed does
      so only when the piece does not end in `\r`, since `\r\n` is matched as one. */
  lemma {:induction false} SplitAfter(a: string, c: char, b: string, commas: bool)
    requires NoSeparator(a, commas) && IsSeparator(c, commas)
    requires c == '\n' ==> a == [] || a[|a| - 1] != '\r'
    ensures Split(a + [c] + b, commas) == [a] + Split(b, commas)
  {
    var s := a + [c] + b;
    if a == [] {
      assert s[1..] == b;
    } else {
      assert s[1..] == a[1..] + [c] + b;
      SplitAfter(a[1..], c, b, commas);
      assert [a[0]] + a[1..] == a;
    }
  }

  /** Items without separators, joined by a separator, split back into exactly those items;
      with a line feed as the separator the items must not end in `\r`. */
  lemma {:induction false} SplitJoin(items: seq<string>, sep: char, commas: bool)
    requires |items| > 0 && IsSeparator(sep, commas)
    requires forall k :: 0 <= k < |items| ==> NoSeparator(items[k], commas)
    requires sep == '\n' ==> forall k :: 0 <= k < |items| ==> items[k] == [] || items[k][|items[k]| - 1] != '\r'
    ensures Split(Json.Join([sep], items), commas) == items
  {
    if |items| == 1 {
      SplitWhole(items[0], commas);
    } else {
      SplitJoin(items[1..], sep, commas);
      SplitAfter(items[0], sep, Json.Join([sep], items[1..]), commas);
      assert Json.Join([sep], items) == items[0] + [sep] + Json.Join([sep], items[1..]);
    }
  }

  /** A `\r\n` pair after a piece without separators ends that piece, whatever the piece
      ends in. */
  lemma {:induction false} SplitAfterCrlf(a: string, b: string, commas: bool)
    requires NoSeparator(a, commas)
    ensures Split(a + "\r\n" + b, commas) == [a] + Split(b, commas)
  {
    var s := a + "\r\n" + b;
    if a == [] {
      assert s[2..] == b;
    } else {
      assert s[1..] == a[1..] + "\r\n" + b;
      SplitAfterCrlf(a[1..], b, commas);
      assert [a[0]] + a[1..] == a;
    }
  }

  /** Items without separators, joined by `\r\n`, split back into exactly those items. */
  lemma {:induction false} SplitJoinCrlf(items: seq<string>, commas: bool)
    requires |items| > 0
    requires forall k :: 0 <= k < |items| ==> NoSeparator(items[k], commas)
    ensures Split(Json.Join("\r\n", items), commas) == items
  {
    if |items| == 1 {
      SplitWhole(items[0], commas);
    } else {
      SplitJoinCrlf(items[1..], commas);
      SplitAfterCrlf(items[0], Json.Join("\r\n", items[1..]), commas);
      assert Json.Join("\r\n", items) == items[0] + "\r\n" + Json.Join("\r\n", items[1..]);
    }
  }

  /** `parseList`. */
  function ParseList(text: string): (r: seq<string>)
    ensures forall k :: 0 <= k < |r| ==> r[k] != [] && IsTrimmed(r[k])
  {
    Tidy(Split(text, true))
  }

  /** `parseSteps`. */
  function ParseSteps(text: string): (r: seq<string>)
    ensures forall k :: 0 <= k < |r| ==> r[k] != [] && IsTrimmed(r[k])
  {
    Tidy(Split(text, false))
  }

  /** A step list is split on line breaks only: text without a line feed is a single step,
      commas included. */
  lemma OneLineIsOneStep(text: string)
    requires forall i :: 0 <= i < |text| ==> text[i] != '\n'
    requires !AllSpace(text)
    ensures ParseSteps(text) == [Trim(text)]
  {
    SplitWhole(text, false);
  }

  /** Items typed separated by commas (or line feeds) parse to those items trimmed, with the
      blank ones dropped, in order; clean items come back exactly. */
  lemma ParseListJoin(items: seq<string>, sep: char)
    requires sep == ',' || sep == '\n'
    requires forall k :: 0 <= k < |items| ==> NoSeparator(items[k], true)
    requires sep == '\n' ==> forall k :: 0 <= k < |items| ==> items[k] == [] || items[k][|items[k]| - 1] != '\r'
    ensures ParseList(Json.Join([sep], items)) == Tidy(items)
    ensures (forall k :: 0 <= k < |items| ==> items[k] != [] && IsTrimmed(items[k])) ==>
      ParseList(Json.Join([sep], items)) == items
  {
    if items == [] {
      TidyOne("");
    } else {
      SplitJoin(items, sep, true);
    }
    if forall k :: 0 <= k < |items| ==> items[k] != [] && IsTrimmed(items[k]) {
      TidyKeepsCleanPieces(items);
    }
  }

  /** Steps typed one per line parse to those steps trimmed, with the blank ones dropped, in
      order, commas included; clean steps come back exactly. */
  lemma ParseStepsJoin(steps: seq<string>)
    requires forall k :: 0 <= k < |steps| ==> NoSeparator(steps[k], false)
    requires forall k :: 0 <= k < |steps| ==> steps[k] == [] || steps[k][|steps[k]| - 1] != '\r'
    ensures ParseSteps(Json.Join("\n", steps)) == Tidy(steps)
    ensures (forall k :: 0 <= k < |steps| ==> steps[k] != [] && IsTrimmed(steps[k])) ==>
      ParseSteps(Json.Join("\n", steps)) == steps
  {
    if steps == [] {
      TidyOne("");
    } else {
      SplitJoin(steps, '\n', false);
    }
    if forall k :: 0 <= k < |steps| ==> steps[k] != [] && IsTrimmed(steps[k]) {
      TidyKeepsCleanPieces(steps);
    }
  }

  /** Items typed on Windows-style lines (`\r\n`) parse to those items trimmed, blank ones
      dropped, in order. */
  lemma ParseListCrlfJoin(items: seq<string>)
    requires forall k :: 0 <= k < |items| ==> NoSeparator(items[k], true)
    ensures ParseList(Json.Join("\r\n", items)) == Tidy(items)
  {
    if items == [] {
      TidyOne("");
    } else {
      SplitJoinCrlf(items, true);
    }
  }

  /** Steps typed on Windows-style lines (`\r\n`) parse to those steps trimmed, blank ones
      dropped, in order. */
  lemma ParseStepsCrlfJoin(steps: seq<string>)
    requires forall k :: 0 <= k < |steps| ==> NoSeparator(steps[k], false)
    ensures ParseSteps(Json.Join("\r\n", steps)) == Tidy(steps)
  {
    if steps == [] {
      TidyOne("");
    } else {
      SplitJoinCrlf(steps, false);
    }
  }

  lemma ParsedListClean(text: string)
    ensures Server.CleanList(ParseList(text)) <==> ParseList(text) != []
  {
  }

  lemma ParsedStepsClean(text: string)
    ensures Server.CleanList(ParseSteps(text)) <==> ParseSteps(text) != []
  {
  }

  // ---------------------------------------------------------------------------------------
  // handleSubmit

  /** The four text boxes of the form. */
  datatype Form = Form(title: string, ingredients: string, steps: string, creator: string)

  /** The payload `handleSubmit` builds from the form. */
  function Payload(form: Form): Recipe {
    Recipe(Trim(form.title), ParseList(form.ingredients), ParseSteps(form.steps), Trim(form.creator))
  }

  const IncompleteForm: string := "Please fill in every field before submitting."

  /** The check `handleSubmit` makes before posting: the payload, or the error status shown. */
  function Submit(form: Form): (r: Result<Recipe, string>)
    ensures r.Ok? <==> Server.Clean(Payload(form))
    ensures r.Ok? ==> r.value == Payload(form)
    ensures r.Err? ==> r.error == IncompleteForm
  {
    var payload := Payload(form);
    ParsedListClean(form.ingredients);
    ParsedStepsClean(form.steps);
    if payload.title == [] || payload.creator == [] || |payload.ingredients| == 0 || |payload.steps| == 0
    then Err(IncompleteForm)
    else Ok(payload)
  }

  /** The client and the server agree: the server accepts the payload of a form exactly when
      the client lets it be submitted, and then passes it on unchanged. */
  lemma SubmitAgreesWithServer(form: Form)
    ensures Server.Sanitize(Some(Server.Body(Payload(form)))).Ok? <==> Submit(form).Ok?
    ensures Submit(form).Ok? ==> Server.Sanitize(Some(Server.Body(Payload(form)))) == Ok(Payload(form))
  {
    var p := Payload(form);
    if Server.Clean(p) {
      Server.CleanBodyAccepted(p);
    } else {
      Server.BodyFields(p);
    }
  }

  // ---------------------------------------------------------------------------------------
  // filteredRecipes

  /** `${recipe.title} ${recipe.creator}`.toLowerCase(). */
  function Haystack(b: Block): (r: string)
    ensures r == Lower(b.title) + " " + Lower(b.creator)
  {
    Lower(b.title + " " + b.creator)
  }

  /** The recipes, in order, whose haystack includes `needle`. */
  function Matching(recipes: seq<Block>, needle: string): (r: seq<Block>)
    ensures |r| <= |recipes|
    ensures forall b :: b in r <==> b in recipes && Includes(Haystack(b), needle)
  {
    if recipes == [] then []
    else (if Includes(Haystack(recipes[0]), needle) then [recipes[0]] else []) + Matching(recipes[1..], needle)
  }

  /** The filter keeps the order of the list: it works recipe by recipe across a concatenation. */
  lemma {:induction false} MatchingAppend(a: seq<Block>, b: seq<Block>, needle: string)
    ensures Matching(a + b, needle) == Matching(a, needle) + Matching(b, needle)
  {
    if a == [] {
      assert a + b == b;
    } else {
      assert (a + b)[1..] == a[1..] + b;
      MatchingAppend(a[1..], b, needle);
    }
  }

  /** `filteredRecipes` for the search box text `query`. */
  function FilterRecipes(recipes: seq<Block>, query: string): (r: seq<Block>)
    ensures AllSpace(query) ==> r == recipes
    ensures !AllSpace(query) ==> forall b :: b in r <==> b in recipes && Includes(Haystack(b), Lower(Trim(query)))
    ensures !AllSpace(query) ==> r == Matching(recipes, Lower(Trim(query)))
  {
    var q := Trim(query);
    if q == [] then recipes else Matching(recipes, Lower(q))
  }
}
