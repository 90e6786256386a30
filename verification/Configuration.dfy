/** The backends named on the command line, one for each country. */
module Configuration {
  import opened Text

  predicate Letter(c: char) {
    'A' <= c <= 'Z' || 'a' <= c <= 'z'
  }

  function UpperChar(c: char): char {
    if 'a' <= c <= 'z' then (c as int - 32) as char else c
  }

  function Upper(s: string): (u: string)
    ensures |u| == |s| && forall i :: 0 <= i < |s| ==> u[i] == UpperChar(s[i])
  {
    if s == "" then "" else [UpperChar(s[0])] + Upper(s[1..])
  }

  type Argument = (string, string)

  predicate TwoLetters(s: string) {
    |s| == 2 && Letter(s[0]) && Letter(s[1])
  }

  /** Whether an argument configures a backend: a country code and a URL that the parser accepts. */
  predicate Configures(a: Argument, parses: string -> bool) {
    && TwoLetters(a.0)
    && (Begins(a.1, "http://") || Begins(a.1, "https://"))
    && parses(a.1)
  }

  predicate For(a: Argument, country: string, parses: string -> bool) {
    Configures(a, parses) && Upper(a.0) == country
  }

  /** The last argument for a country, in the order in which they are visited, is the one that counts. */
  ghost predicate LastFor(arguments: seq<Argument>, i: nat, country: string, parses: string -> bool) {
    && i < |arguments| && For(arguments[i], country, parses)
    && forall j :: i < j < |arguments| ==> !For(arguments[j], country, parses)
  }

  ghost predicate Loaded(backends: map<string, string>, arguments: seq<Argument>, parses: string -> bool) {
    && (forall c :: c in backends ==> exists i: nat :: LastFor(arguments, i, c, parses) && arguments[i].1 == backends[c])
    && (forall i :: 0 <= i < |arguments| && Configures(arguments[i], parses) ==> Upper(arguments[i].0) in backends)
  }

  lemma LoadedStep(backends: map<string, string>, arguments: seq<Argument>, a: Argument, parses: string -> bool)
    requires Loaded(backends, arguments, parses)
    ensures Loaded(if Configures(a, parses) then backends[Upper(a.0) := a.1] else backends, arguments + [a], parses)
  {
    var more := arguments + [a];
    var next := if Configures(a, parses) then backends[Upper(a.0) := a.1] else backends;
    forall c | c in next ensures exists i: nat :: LastFor(more, i, c, parses) && more[i].1 == next[c] {
      if For(a, c, parses) {
        assert LastFor(more, |arguments|, c, parses);
      } else {
        var i: nat :| LastFor(arguments, i, c, parses) && arguments[i].1 == backends[c];
        assert LastFor(more, i, c, parses);
      }
    }
  }

  /** The part of `loadConfiguration` that fills the country map. */
  method LoadBackends(arguments: seq<Argument>, parses: string -> bool) returns (backends: map<string, string>)
    ensures Loaded(backends, arguments, parses)
  {
    backends := map[];
    assert arguments[..0] == [];
    for i := 0 to |arguments|
      invariant Loaded(backends, arguments[..i], parses)
    {
      LoadedStep(backends, arguments[..i], arguments[i], parses);
      assert arguments[..i] + [arguments[i]] == arguments[..i + 1];
      var (key, value) := arguments[i];
      if TwoLetters(key) && (Begins(value, "http://") || Begins(value, "https://")) && parses(value) {
        backends := backends[Upper(key) := value];
      }
    }
    assert arguments[..|arguments|] == arguments;
  }

  /** Every configured country is two upper-case letters. */
  lemma CountriesAreTwoLetters(backends: map<string, string>, arguments: seq<Argument>, parses: string -> bool, c: string)
    requires Loaded(backends, arguments, parses) && c in backends
    ensures TwoLetters(c) && Upper(c) == c
  {
    var i: nat :| LastFor(arguments, i, c, parses) && arguments[i].1 == backends[c];
    var key := arguments[i].0;
    assert Upper(key)[0] == UpperChar(key[0]) && Upper(key)[1] == UpperChar(key[1]);
    assert Upper(c) == c by {
      assert Upper(c)[0] == UpperChar(c[0]) && Upper(c)[1] == UpperChar(c[1]);
    }
  }

  /** Any two letters, in either case, are taken as a country: the last argument for it with a URL of the two
      kinds gives its backend, under the code in upper case. */
  lemma LettersAreLoaded(backends: map<string, string>, arguments: seq<Argument>, parses: string -> bool,
                         i: nat, x: nat, y: nat, url: string)
    requires Loaded(backends, arguments, parses) && i < |arguments|
    requires (65 <= x <= 90 || 97 <= x <= 122) && (65 <= y <= 90 || 97 <= y <= 122)
    requires arguments[i] == ([x as char, y as char], url) && parses(url)
    requires |url| >= 7 && (url[..7] == "http://" || (|url| >= 8 && url[..8] == "https://"))
    ensures var code := [(if x >= 97 then x - 32 else x) as char, (if y >= 97 then y - 32 else y) as char];
            code in backends
  {
    var code := [(if x >= 97 then x - 32 else x) as char, (if y >= 97 then y - 32 else y) as char];
    var key := arguments[i].0;
    assert Upper(key)[0] == UpperChar(key[0]) && Upper(key)[1] == UpperChar(key[1]);
    assert Upper(key) == code;
    assert Configures(arguments[i], parses);
  }
}
