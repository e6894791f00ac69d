/** The may-match tests as the code runs them: loops that stop as soon as the answer is known. */
module Scan {
  import opened May
  import opened Syntax
  import opened Globstar
  import opened Join

  method PackageMayMatch(env: Env, p: Point, ctx: PackageContext) returns (r: MatchType)
    ensures r == PackageMay(env, p, ctx)
    decreases p
  {
    match p {
      case AllOf(points) =>
        var sum := Match;
        for i := 0 to |points|
          invariant sum != NeverMatch && sum.And(AllPackageMay(env, points[i..], ctx)) == PackageMay(env, p, ctx)
        {
          var answer := PackageMayMatch(env, points[i], ctx);
          assert points[i..][1..] == points[i + 1..];
          sum := sum.And(answer);
          if sum == NeverMatch { return NeverMatch; }
        }
        r := sum;
      case OneOf(points) =>
        var sum := NeverMatch;
        for i := 0 to |points|
          invariant sum != Match && sum.Or(AnyPackageMay(env, points[i..], ctx)) == PackageMay(env, p, ctx)
        {
          var answer := PackageMayMatch(env, points[i], ctx);
          assert points[i..][1..] == points[i + 1..];
          sum := sum.Or(answer);
          if sum == Match { return Match; }
        }
        r := sum;
      case Not(point) =>
        r := PackageMayMatch(env, point, ctx);
        r := r.Not();
      case Function(options) =>
        var sum := Match;
        for i := 0 to |options|
          invariant sum != NeverMatch
          invariant sum.And(OptionsPackageMay(options[i..], ctx)) == OptionsPackageMay(options, ctx)
        {
          var answer;
          if options[i].Signature? || options[i].SignatureContains? {
            answer := SignaturePackageMayMatch(options[i].args, options[i].results, ctx);
          } else {
            answer := OptionPackageMay(options[i], ctx);
          }
          assert options[i..][1..] == options[i + 1..];
          sum := sum.And(answer);
          if sum == NeverMatch { return NeverMatch; }
        }
        r := sum;
      case FunctionBody(inner) =>
        r := PackageMayMatch(env, inner, ctx);
      case _ =>
        r := PackageMay(env, p, ctx);
    }
  }

  method SignaturePackageMayMatch(args: seq<TypeName>, results: seq<TypeName>, ctx: PackageContext)
    returns (sum: MatchType)
    ensures sum == ImportsAll(args, ctx).And(ImportsAll(results, ctx))
  {
    sum := Match;
    for i := 0 to |args|
      invariant sum != NeverMatch && sum.And(ImportsAll(args[i..], ctx)) == ImportsAll(args, ctx)
    {
      assert args[i..][1..] == args[i + 1..];
      sum := sum.And(ctx.PackageImports(args[i].importPath));
      if sum == NeverMatch { return; }
    }
    for i := 0 to |results|
      invariant sum != NeverMatch
      invariant sum.And(ImportsAll(results[i..], ctx)) == ImportsAll(args, ctx).And(ImportsAll(results, ctx))
    {
      assert results[i..][1..] == results[i + 1..];
      sum := sum.And(ctx.PackageImports(results[i].importPath));
      if sum == NeverMatch { return; }
    }
  }

  method FileMayMatch(p: Point, ctx: FileContext) returns (r: MatchType)
    ensures r == FileMay(p, ctx)
    decreases p
  {
    match p {
      case AllOf(points) =>
        var sum := Match;
        for i := 0 to |points|
          invariant sum != NeverMatch && sum.And(AllFileMay(points[i..], ctx)) == FileMay(p, ctx)
        {
          var answer := FileMayMatch(points[i], ctx);
          assert points[i..][1..] == points[i + 1..];
          sum := sum.And(answer);
          if sum == NeverMatch { return NeverMatch; }
        }
        r := sum;
      case OneOf(points) =>
        var sum := NeverMatch;
        for i := 0 to |points|
          invariant sum != Match && sum.Or(AnyFileMay(points[i..], ctx)) == FileMay(p, ctx)
        {
          var answer := FileMayMatch(points[i], ctx);
          assert points[i..][1..] == points[i + 1..];
          sum := sum.Or(answer);
          if sum == Match { return Match; }
        }
        r := sum;
      case Not(point) =>
        r := FileMayMatch(point, ctx);
        r := r.Not();
      case Function(options) =>
        var sum := Match;
        for i := 0 to |options|
          invariant sum != NeverMatch && sum.And(OptionsFileMay(options[i..], ctx)) == OptionsFileMay(options, ctx)
        {
          assert options[i..][1..] == options[i + 1..];
          sum := sum.And(OptionFileMay(options[i], ctx));
          if sum == NeverMatch { return NeverMatch; }
        }
        r := sum;
      case FunctionBody(inner) =>
        r := FileMayMatch(inner, ctx);
      case _ =>
        r := FileMay(p, ctx);
    }
  }
}
