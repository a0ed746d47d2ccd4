/**
 * Parsing of the boolean configuration flag read from the secret (`_to_bool`).
 * A secret value arrives as whatever JSON decoding produced: a boolean, a
 * string, or something else (a number, null, a list, an object).
 */
module Config {
  import opened Text

  datatype ConfigValue = BoolValue(b: bool) | StringValue(s: string) | OtherValue

  /** The spellings that count as "true", compared after stripping and lower-casing. */
  const TruthyWords: set<string> := {"1", "true", "yes", "y", "on"}

  /** `_to_bool(val, default)` */
  function ToBool(val: ConfigValue, default: bool): bool {
    match val
    case BoolValue(b) => b
    case StringValue(s) => Lower(Strip(s)) in TruthyWords
    case OtherValue => default
  }

  /** A bool flag is returned as it is, and a value neither bool nor string gives the default. */
  lemma ToBoolNonString(b: bool, default: bool)
    ensures ToBool(BoolValue(b), default) == b
    ensures ToBool(OtherValue, default) == default
  {
  }

  /** White space around a string flag does not change its meaning. */
  lemma ToBoolIgnoresPadding(pre: string, s: string, post: string, default: bool)
    requires AllSpace(pre) && AllSpace(post)
    ensures ToBool(StringValue(pre + s + post), default) == ToBool(StringValue(s), default)
  {
    StripPadding(pre, s, post);
  }

  /** A string flag never falls back to the default: it is false unless it is one of the truthy words. */
  lemma ToBoolStringIgnoresDefault(s: string)
    ensures ToBool(StringValue(s), true) == ToBool(StringValue(s), false)
  {
  }

  /** The letters of a string flag may be written in either case. */
  lemma {:induction false} ToBoolIgnoresCase(s: string, default: bool)
    ensures ToBool(StringValue(Upper(s)), default) == ToBool(StringValue(s), default)
  {
    StripUpper(s);
    LowerOfUpper(Strip(s));
  }

  /** Upper-casing never turns a space into a non-space or back, so it commutes with `strip`. */
  lemma StripUpper(s: string)
    ensures Strip(Upper(s)) == Upper(Strip(s))
  {
    TrimStartUpper(s);
    TrimEndUpper(TrimStart(s));
  }

  lemma {:induction false} TrimStartUpper(s: string)
    ensures TrimStart(Upper(s)) == Upper(TrimStart(s))
    decreases |s|
  {
    if s != [] {
      assert Upper(s)[1..] == Upper(s[1..]);
      if IsSpace(s[0]) {
        TrimStartUpper(s[1..]);
      }
    }
  }

  lemma {:induction false} TrimEndUpper(s: string)
    ensures TrimEnd(Upper(s)) == Upper(TrimEnd(s))
    decreases |s|
  {
    if s != [] {
      assert Upper(s)[..|s| - 1] == Upper(s[..|s| - 1]);
      if IsSpace(s[|s| - 1]) {
        TrimEndUpper(s[..|s| - 1]);
      }
    }
  }

  /** `s` is `word` with white space (possibly none) on either side. */
  ghost predicate PaddedWord(s: string, word: string) {
    exists pre, post :: AllSpace(pre) && AllSpace(post) && s == pre + word + post
  }

  /** A word that lower-cases to a truthy word has no white space at its ends. */
  lemma TruthyWordEdges(w: string)
    requires Lower(w) in TruthyWords
    ensures w != [] && !IsSpace(w[0]) && !IsSpace(w[|w| - 1])
  {
    var l := Lower(w);
    assert l[0] in "1tyo" && l[|l| - 1] in "1esyn";
  }

  /**
   * A string flag is true exactly when it is one of the truthy words, in any
   * mix of upper and lower case, with any white space around it.
   */
  lemma ToBoolStringIff(s: string, default: bool)
    ensures ToBool(StringValue(s), default) <==> exists w :: Lower(w) in TruthyWords && PaddedWord(s, w)
  {
    if ToBool(StringValue(s), default) {
      StripSplit(s);
      assert Lower(Strip(s)) in TruthyWords && PaddedWord(s, Strip(s));
    }
    if exists w :: Lower(w) in TruthyWords && PaddedWord(s, w) {
      var w :| Lower(w) in TruthyWords && PaddedWord(s, w);
      var pre, post :| AllSpace(pre) && AllSpace(post) && s == pre + w + post;
      StripPadding(pre, w, post);
      TruthyWordEdges(w);
      StripWord(w);
    }
  }

  /** The flag values a deployment is likely to write. */
  lemma ToBoolExamples()
    ensures ToBool(StringValue(" TRUE "), false)
    ensures ToBool(StringValue("Yes"), false)
    ensures ToBool(StringValue("1"), false)
    ensures !ToBool(StringValue("false"), true)
    ensures !ToBool(StringValue(""), true)
    ensures !ToBool(BoolValue(false), true)
    ensures ToBool(OtherValue, true) && !ToBool(OtherValue, false)
  {
    assert " " + "TRUE" + " " == " TRUE ";
    assert AllSpace(" ");
    StripPadding(" ", "TRUE", " ");
    assert Strip("TRUE") == "TRUE";
    assert Lower("TRUE") == "true";
    assert Strip("Yes") == "Yes";
    assert Lower("Yes") == "yes";
    assert Strip("1") == "1";
    assert Lower("1") == "1";
    assert Strip("false") == "false";
    assert Lower("false") == "false";
  }
}
