/** The canonical form of a query string: parsed, sorted and written again. */
module QueryCanonical {
  import opened Wrappers
  import opened Text
  import opened Ordering
  import Percent
  import Utf8

  /** One `name=value` part; a part whose value is blank, or missing, is dropped. */
  function ParsePart(part: string): Option<Pair> {
    if '=' !in part then None
    else
      var i := IndexOf('=', part);
      if part[i + 1..] == "" then None
      else Some((Percent.UnquotePlus(part[..i]), Percent.UnquotePlus(part[i + 1..])))
  }

  function ParseParts(parts: seq<string>): seq<Pair> {
    if parts == [] then []
    else
      (match ParsePart(parts[0])
       case None => []
       case Some(pair) => [pair]) + ParseParts(parts[1..])
  }

  function ParseQuery(query: string): seq<Pair> {
    if query == "" then [] else ParseParts(Split('&', query))
  }

  function PartOf(pair: Pair): string {
    Percent.QuotePlus(pair.0) + "=" + Percent.QuotePlus(pair.1)
  }

  function PartsOf(pairs: seq<Pair>): seq<string> {
    if pairs == [] then [] else [PartOf(pairs[0])] + PartsOf(pairs[1..])
  }

  function UrlEncode(pairs: seq<Pair>): string {
    Joined("&", PartsOf(pairs))
  }

  function NormalizeQuery(query: string): string {
    if query == "" then "" else UrlEncode(Sorted(ParseQuery(query)))
  }

  predicate NoBlankValue(pairs: seq<Pair>) {
    forall i | 0 <= i < |pairs| :: pairs[i].1 != ""
  }

  lemma PartIsParsed(pair: Pair)
    requires pair.1 != ""
    ensures ParsePart(PartOf(pair)) == Some(pair)
    ensures '&' !in PartOf(pair) && PartOf(pair) != ""
  {
    hide Percent.QuoteBytes, Percent.Unquote, Percent.PlusToSpace, Utf8.Encode;
    var name, v := Percent.QuotePlus(pair.0), Percent.QuotePlus(pair.1);
    Percent.QuotedIsPlain(Utf8.Encode(pair.0));
    Percent.QuotedIsPlain(Utf8.Encode(pair.1));
    Percent.RoundTrip(pair.0);
    Percent.RoundTrip(pair.1);
    assert Utf8.Encode(pair.1) != [] by { Utf8.RoundTrip(pair.1); }
    assert PartOf(pair) == name + ['='] + v;
    IndexAfterPrefix('=', name, v);
    assert PartOf(pair)[..|name|] == name && PartOf(pair)[|name| + 1..] == v;
  }

  lemma {:induction false} PartsAreParsed(pairs: seq<Pair>)
    requires NoBlankValue(pairs)
    ensures ParseParts(PartsOf(pairs)) == pairs
    ensures |PartsOf(pairs)| == |pairs|
    ensures forall part <- PartsOf(pairs) :: '&' !in part && part != ""
  {
    hide ParsePart, PartOf;
    if pairs != [] {
      PartIsParsed(pairs[0]);
      PartsAreParsed(pairs[1..]);
      assert pairs == [pairs[0]] + pairs[1..];
      assert PartsOf(pairs)[1..] == PartsOf(pairs[1..]);
    }
  }

  /** Parsing undoes writing, for all pairs without a blank value. */
  lemma RoundTrip(pairs: seq<Pair>)
    requires NoBlankValue(pairs)
    ensures ParseQuery(UrlEncode(pairs)) == pairs
  {
    hide ParsePart, PartOf, Split;
    PartsAreParsed(pairs);
    if pairs != [] {
      SplitJoined('&', PartsOf(pairs));
      assert PartsOf(pairs)[0] in PartsOf(pairs);
      JoinedIsSomething(PartsOf(pairs));
    }
  }

  lemma JoinedIsSomething(parts: seq<string>)
    requires parts != [] && parts[0] != ""
    ensures Joined("&", parts) != ""
  {
  }

  lemma {:induction false} ParsedHasNoBlankValue(parts: seq<string>)
    ensures NoBlankValue(ParseParts(parts))
  {
    hide Percent.UnquotePlus;
    if parts != [] {
      ParsedHasNoBlankValue(parts[1..]);
      if '=' in parts[0] && parts[0][IndexOf('=', parts[0]) + 1..] != "" {
        Percent.UnquotedIsSomething(parts[0][IndexOf('=', parts[0]) + 1..]);
      }
    }
  }

  /** What normalising leaves of a query, when it is parsed again. */
  lemma NormalizedIsSorted(query: string)
    ensures ParseQuery(NormalizeQuery(query)) == Sorted(ParseQuery(query))
    ensures NormalizeQuery(query) == UrlEncode(Sorted(ParseQuery(query)))
  {
    hide ParseParts, PartsOf, Split;
    var pairs := ParseQuery(query);
    SortedIsOrdered(pairs);
    if query != "" {
      ParsedHasNoBlankValue(Split('&', query));
      forall i | 0 <= i < |Sorted(pairs)| ensures Sorted(pairs)[i].1 != "" {
        assert Sorted(pairs)[i] in multiset(pairs);
        assert Sorted(pairs)[i] in pairs;
      }
      RoundTrip(Sorted(pairs));
    } else {
      NothingToWrite();
    }
  }

  lemma NothingToWrite()
    ensures Sorted([]) == [] && UrlEncode([]) == ""
  {
  }

  /** Normalising twice is normalising once. */
  lemma NormalizeIsIdempotent(query: string)
    ensures NormalizeQuery(NormalizeQuery(query)) == NormalizeQuery(query)
  {
    hide ParseQuery, UrlEncode, NormalizeQuery, Sorted;
    NormalizedIsSorted(query);
    NormalizedIsSorted(NormalizeQuery(query));
    var pairs := ParseQuery(query);
    SortedIsOrdered(pairs);
    SortedIsOrdered(Sorted(pairs));
    OrderedIsUnique(Sorted(pairs), Sorted(Sorted(pairs)));
  }

  /** Two queries have the same canonical form exactly when they carry the same non-blank pairs,
      counted with repetitions and in any order. */
  lemma SameFormIffSamePairs(first: string, second: string)
    ensures NormalizeQuery(first) == NormalizeQuery(second) <==>
      multiset(ParseQuery(first)) == multiset(ParseQuery(second))
  {
    hide ParseQuery, UrlEncode, NormalizeQuery, Sorted;
    NormalizedIsSorted(first);
    NormalizedIsSorted(second);
    SortedIsOrdered(ParseQuery(first));
    SortedIsOrdered(ParseQuery(second));
    if multiset(ParseQuery(first)) == multiset(ParseQuery(second)) {
      OrderedIsUnique(Sorted(ParseQuery(first)), Sorted(ParseQuery(second)));
    }
  }

  /** A canonical query is on one line. */
  lemma NormalizedHasNoNewline(query: string)
    ensures '\n' !in NormalizeQuery(query)
  {
    hide ParseQuery, Sorted;
    if query != "" {
      EncodedHasNoNewline(Sorted(ParseQuery(query)));
    }
  }

  lemma {:induction false} EncodedHasNoNewline(pairs: seq<Pair>)
    ensures '\n' !in UrlEncode(pairs)
  {
    hide Percent.QuoteBytes, Utf8.Encode;
    if pairs != [] {
      Percent.QuotedIsPlain(Utf8.Encode(pairs[0].0));
      Percent.QuotedIsPlain(Utf8.Encode(pairs[0].1));
      EncodedHasNoNewline(pairs[1..]);
      assert PartsOf(pairs)[1..] == PartsOf(pairs[1..]);
    }
  }

  // What a query means, part by part

  lemma {:induction false} ParsePartsConcat(a: seq<string>, b: seq<string>)
    ensures ParseParts(a + b) == ParseParts(a) + ParseParts(b)
  {
    hide ParsePart;
    if a == [] {
      assert a + b == b;
    } else {
      assert (a + b)[1..] == a[1..] + b;
      ParsePartsConcat(a[1..], b);
    }
  }

  /** A query is its parts, in order. */
  lemma ParsedInParts(s: string, t: string)
    ensures ParseQuery(s + "&" + t) == ParseQuery(s) + ParseQuery(t)
  {
    SplitConcat('&', s, t);
    ParsePartsConcat(Split('&', s), Split('&', t));
    NothingIsParsed();
    hide ParseParts, Split;
    assert s + "&" + t == s + ['&'] + t;
  }

  lemma NothingIsParsed()
    ensures ParseParts(Split('&', "")) == []
  {
    assert Split('&', "") == [""] && [""][1..] == [];
    assert ParsePart("") == None;
  }

  lemma OnePart(part: string)
    requires '&' !in part
    ensures ParseQuery(part) == match ParsePart(part) case None => [] case Some(pair) => [pair]
  {
    NothingIsParsed();
    assert Split('&', part) == [part] && [part][1..] == [];
    hide ParsePart;
  }

  /** The first equals sign ends the name; all that follows it is the value, with more of them or
      not. */
  lemma PairIsRead(name: string, v: string)
    requires '=' !in name && '&' !in name && '&' !in v && v != ""
    ensures ParseQuery(name + "=" + v) == [(Percent.UnquotePlus(name), Percent.UnquotePlus(v))]
  {
    var part := name + ['='] + v;
    assert name + "=" + v == part;
    IndexAfterPrefix('=', name, v);
    assert part[..|name|] == name && part[|name| + 1..] == v;
    hide Percent.UnquotePlus;
    OnePart(part);
  }

  /** A part without a value, or without an equals sign, is nothing. */
  lemma BlankIsNothing(part: string)
    requires '&' !in part && '=' !in part
    ensures ParseQuery(part) == [] && ParseQuery(part + "=") == []
  {
    var blank := part + ['='] + "";
    assert part + "=" == blank;
    IndexAfterPrefix('=', part, "");
    hide Percent.UnquotePlus;
    OnePart(part);
    OnePart(blank);
  }

  /** A value of its own makes a query of its own: two values that are read differently are never
      taken for one another. */
  lemma DifferentValuesDifferentForms(name: string, v: string, w: string)
    requires '=' !in name && '&' !in name && '&' !in v && '&' !in w && v != "" && w != ""
    requires Percent.UnquotePlus(v) != Percent.UnquotePlus(w)
    ensures NormalizeQuery(name + "=" + v) != NormalizeQuery(name + "=" + w)
  {
    PairIsRead(name, v);
    PairIsRead(name, w);
    hide ParseQuery, NormalizeQuery, Percent.UnquotePlus;
    SameFormIffSamePairs(name + "=" + v, name + "=" + w);
    var p := (Percent.UnquotePlus(name), Percent.UnquotePlus(v));
    var q := (Percent.UnquotePlus(name), Percent.UnquotePlus(w));
    assert multiset([p])[p] == 1 && multiset([q])[p] == 0;
  }
}
