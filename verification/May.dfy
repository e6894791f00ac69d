/**
 Three-valued answers to "can this join point match anything here?"
 (internal/injector/aspect/may): `NeverMatch` is a promise, the other two are not.
 */
module May {
  import opened Strings

  datatype MatchType = Unknown | Match | NeverMatch
  {
    function Not(): MatchType {
      match this
      case Match => Unknown
      case NeverMatch => Match
      case Unknown => Unknown
    }

    function Or(other: MatchType): MatchType {
      if this == Match || other == Match then Match
      else if this == NeverMatch && other == NeverMatch then NeverMatch
      else Unknown
    }

    function And(other: MatchType): MatchType {
      if this == NeverMatch || other == NeverMatch then NeverMatch
      else if this == Match && other == Match then Match
      else Unknown
    }
  }

  datatype PackageContext = PackageContext(importPath: string, importMap: map<string, string>, testMain: bool)
  {
    function PackageImports(path: string): MatchType {
      if path == "" then Unknown
      else if path in importMap || path == importPath then Match
      else NeverMatch
    }
  }

  datatype FileContext = FileContext(content: string, packageName: string)
  {
    /** A suffix-array lookup, which finds nothing when asked for the empty text. */
    function FileContains(text: string): MatchType {
      if text != "" && Contains(content, text) then Match else NeverMatch
    }
  }
}
