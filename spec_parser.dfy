/** `parse_and_validate`: the weight and impact arguments become one weight
    and one direction per criterion, or the first error in a fixed order. */
module SpecParser {
  import opened Base
  import opened Tokenize

  /** The direction of a criterion: `+` (benefit, maximise) or `-` (cost, minimise). */
  datatype Impact = Benefit | Cost

  /** The validated weights and impacts, one of each per criterion. */
  datatype Spec = Spec(weights: seq<real>, impacts: seq<Impact>)

  /** Every token is a number for `parse`. */
  predicate AllNumeric(tokens: seq<string>, parse: string -> Option<real>) {
    forall k :: 0 <= k < |tokens| ==> parse(tokens[k]).Some?
  }

  /** Every token is "+" or "-". */
  predicate AllSigns(tokens: seq<string>) {
    forall k :: 0 <= k < |tokens| ==> tokens[k] == "+" || tokens[k] == "-"
  }

  /** `float()` applied to every token; None as soon as one token is not a number.
      `parse` stands for Python's `float`, whose parsing is not modelled. */
  function ParseWeights(tokens: seq<string>, parse: string -> Option<real>): (r: Option<seq<real>>)
    ensures r.Some? <==> AllNumeric(tokens, parse)
    ensures r.Some? ==> |r.value| == |tokens|
    ensures r.Some? ==> forall k :: 0 <= k < |tokens| ==> parse(tokens[k]) == Some(r.value[k])
  {
    if tokens == [] then Some([])
    else
      match parse(tokens[0])
      case None => None
      case Some(w) =>
        match ParseWeights(tokens[1..], parse)
        case None => None
        case Some(ws) => Some([w] + ws)
  }

  /** The impact a token names, if it is exactly "+" or "-". */
  function ImpactOf(token: string): (r: Option<Impact>)
    ensures r.Some? <==> token in {"+", "-"}
    ensures r == Some(Benefit) <==> token == "+"
  {
    if token == "+" then Some(Benefit)
    else if token == "-" then Some(Cost)
    else None
  }

  /** The impacts of all tokens; None when some token is neither "+" nor "-". */
  function ParseImpacts(tokens: seq<string>): (r: Option<seq<Impact>>)
    ensures r.Some? <==> AllSigns(tokens)
    ensures r.Some? ==> |r.value| == |tokens|
    ensures r.Some? ==> forall k :: 0 <= k < |tokens| ==> (r.value[k] == Benefit <==> tokens[k] == "+")
  {
    if tokens == [] then Some([])
    else
      match ImpactOf(tokens[0])
      case None => None
      case Some(d) =>
        match ParseImpacts(tokens[1..])
        case None => None
        case Some(ds) => Some([d] + ds)
  }

  /** `parse_and_validate(weights_arg, impacts_arg, ncols)`. A non-numeric weight
      is reported first; otherwise a bad impact token; only then a count that
      is not `ncols`. On success both vectors have exactly `ncols` entries, the
      weights are the parsed weight tokens and the impacts follow the impact
      tokens. */
  function ParseAndValidate(weightsArg: string, impactsArg: string, ncols: int,
                            parse: string -> Option<real>): (r: Result<Spec>)
    ensures var wt, it := Tokens(weightsArg), Tokens(impactsArg);
      && (r == Err(NonNumericWeights) <==> !AllNumeric(wt, parse))
      && (r == Err(InvalidImpacts) <==> AllNumeric(wt, parse) && !AllSigns(it))
      && (r == Err(CountMismatch(ncols)) <==>
            AllNumeric(wt, parse) && AllSigns(it) && (|wt| != ncols || |it| != ncols))
      && (r.Err? ==> r.error == NonNumericWeights || r.error == InvalidImpacts || r.error == CountMismatch(ncols))
    ensures r.Ok? ==>
      && |r.value.weights| == ncols && |r.value.impacts| == ncols
      && (forall k :: 0 <= k < ncols ==> parse(Tokens(weightsArg)[k]) == Some(r.value.weights[k]))
      && (forall k :: 0 <= k < ncols ==> (r.value.impacts[k] == Benefit <==> Tokens(impactsArg)[k] == "+"))
  {
    match ParseWeights(Tokens(weightsArg), parse)
    case None => Err(NonNumericWeights)
    case Some(weights) =>
      match ParseImpacts(Tokens(impactsArg))
      case None => Err(InvalidImpacts)
      case Some(impacts) =>
        if |weights| != ncols || |impacts| != ncols then Err(CountMismatch(ncols))
        else Ok(Spec(weights, impacts))
  }

  /** A malformed weight such as "1,a,1" is rejected, whatever the impacts. */
  lemma MalformedWeightRejected(impactsArg: string, ncols: int, parse: string -> Option<real>)
    requires parse("a") == None
    ensures ParseAndValidate("1,a,1", impactsArg, ncols, parse) == Err(NonNumericWeights)
  {
    var parts := ["1", "a", "1"];
    assert Join(parts[1..], ',') == "a,1";
    assert Join(parts, ',') == "1,a,1";
    TokensOfJoin(parts);
    assert Tokens("1,a,1")[1] == "a";
  }
}
