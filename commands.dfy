/**
 * The command parser: a free-text command such as "bus to downtown" is
 * lower-cased and trimmed, must contain "to", and the text after the first
 * "to" (up to the next one) is searched for as a stop; the routes of the
 * first stop found are then fetched. The two HTTP lookups are oracle
 * parameters, and the reply records which lookups were made.
 */
module Commands {
  import opened Schema
  import Text
  import Storage
  import opened Wrappers

  /** An awaited request: its parsed body, or a thrown error. */
  datatype Fetch<T> = Fetched(value: T) | Failed

  /** The two lookups a command can make. */
  datatype Request = SearchRequest(query: string) | RoutesRequest(stopId: int)

  /** The object `processCommand` resolves to: `{ stops, routes }` or `{ error }`, never both. */
  datatype CommandResult = Found(stops: seq<Stop>, routes: seq<Route>) | Error(message: string)

  /** A result together with the lookups made, in order. */
  datatype Reply = Reply(result: CommandResult, requests: seq<Request>)

  const NotUnderstood: string := "I don't understand that command"
  const NoStopsFound: string := "No stops found matching your destination"
  const LookupFailed: string := "Failed to process command"

  /** The keyword every understood command contains. */
  const Keyword: string := "to"

  /** `command.toLowerCase().trim()`: no whitespace at either end. */
  function Normalize(command: string): (n: string)
    ensures n == [] || (!Text.IsWhitespace(n[0]) && !Text.IsWhitespace(n[|n| - 1]))
  {
    Text.Trim(Text.Lower(command))
  }

  /** `normalized.split("to")[1].trim()`: the destination, when the keyword occurs. */
  function Destination(normalized: string): (d: string)
    requires Text.Includes(normalized, Keyword)
    ensures |d| < |normalized|
  {
    var parts := Text.Split(normalized, Keyword);
    assert |parts[1]| < |normalized| by { Text.SecondPieceShorter(normalized, Keyword); }
    Text.Trim(parts[1])
  }

  /**
   * The part of `processCommand` after parsing: with no destination the
   * command is not understood; otherwise the destination is searched for and
   * the routes of the first stop found are fetched.
   */
  function Answer(
    parsed: Option<string>,
    search: string -> Fetch<seq<Stop>>,
    routesByStop: int -> Fetch<seq<Route>>): (reply: Reply)
    ensures reply.requests == [] <==> parsed.None?
    ensures reply.result == Error(NotUnderstood) <==> parsed.None?
    ensures parsed.Some? ==>
      && 1 <= |reply.requests| <= 2
      && reply.requests[0] == SearchRequest(parsed.value)
      && (reply.result == Error(NoStopsFound) <==> search(parsed.value) == Fetched([]))
      && (|reply.requests| == 2 <==> search(parsed.value).Fetched? && search(parsed.value).value != [])
    ensures reply.result.Found? ==>
      && parsed.Some?
      && reply.result.stops != []
      && search(parsed.value) == Fetched(reply.result.stops)
      && reply.requests == [SearchRequest(parsed.value), RoutesRequest(reply.result.stops[0].id)]
      && routesByStop(reply.result.stops[0].id) == Fetched(reply.result.routes)
    ensures reply.result == Error(LookupFailed) <==>
      && parsed.Some?
      && (|| search(parsed.value).Failed?
          || (search(parsed.value).value != [] && routesByStop(search(parsed.value).value[0].id).Failed?))
    ensures reply.result.Error? ==> reply.result.message in {NotUnderstood, NoStopsFound, LookupFailed}
  {
    match parsed
    case None => Reply(Error(NotUnderstood), [])
    case Some(dest) =>
      match search(dest)
      case Failed => Reply(Error(LookupFailed), [SearchRequest(dest)])
      case Fetched(stops) =>
        if |stops| == 0 then Reply(Error(NoStopsFound), [SearchRequest(dest)])
        else
          match routesByStop(stops[0].id)
          case Failed => Reply(Error(LookupFailed), [SearchRequest(dest), RoutesRequest(stops[0].id)])
          case Fetched(routes) => Reply(Found(stops, routes), [SearchRequest(dest), RoutesRequest(stops[0].id)])
  }

  /** The destination as `processCommand` finds it: any occurrence of the letters "to" counts. */
  function Parse(n: string): (p: Option<string>)
    ensures p.Some? <==> Text.Includes(n, Keyword)
    ensures p.Some? ==> |p.value| < |n|
  {
    if Text.Includes(n, Keyword) then Some(Destination(n)) else None
  }

  /** `processCommand`, with the stop search and the by-stop route lookup as oracles. */
  function ProcessCommand(
    command: string,
    search: string -> Fetch<seq<Stop>>,
    routesByStop: int -> Fetch<seq<Route>>): (reply: Reply)
    ensures reply.result == Error(NotUnderstood) <==> !Text.Includes(Normalize(command), Keyword)
    ensures Text.Includes(Normalize(command), Keyword) ==>
      reply.requests != [] && reply.requests[0] == SearchRequest(Destination(Normalize(command)))
  {
    Answer(Parse(Normalize(command)), search, routesByStop)
  }

  // ------------------------------------------------- keyword as a whole word

  /** The keyword "to" as a word of `n`: bounded by spaces or by the ends of `n`. */
  predicate KeywordWordAt(n: string, i: int) {
    && 0 <= i && i + 2 <= |n| && n[i] == 't' && n[i + 1] == 'o'
    && (i == 0 || n[i - 1] == ' ')
    && (i + 2 == |n| || n[i + 2] == ' ')
  }

  /** The first position at or after `from` where "to" stands as a word. */
  function FirstKeywordWord(n: string, from: nat): (r: Option<nat>)
    ensures r.Some? ==> from <= r.value && KeywordWordAt(n, r.value)
    decreases |n| - from
  {
    if |n| < from + 2 then None
    else if KeywordWordAt(n, from) then Some(from)
    else FirstKeywordWord(n, from + 1)
  }

  /** No word "to" lies between `from` and the position found, nor after `from` when none is found. */
  lemma {:induction false} FirstKeywordWordIsFirst(n: string, from: nat)
    ensures FirstKeywordWord(n, from).Some? ==>
      forall j :: from <= j < FirstKeywordWord(n, from).value ==> !KeywordWordAt(n, j)
    ensures FirstKeywordWord(n, from).None? ==> forall j :: from <= j ==> !KeywordWordAt(n, j)
    decreases |n| - from
  {
    if |n| < from + 2 {
    } else if KeywordWordAt(n, from) {
    } else {
      FirstKeywordWordIsFirst(n, from + 1);
    }
  }

  /** The destination as evidently intended: everything after the first word "to". */
  function ParseByWord(n: string): (p: Option<string>)
    ensures p.Some? ==> |p.value| < |n|
  {
    match FirstKeywordWord(n, 0)
    case None => None
    case Some(i) => Some(Text.Trim(n[i + 2..]))
  }

  /** `processCommand` with the keyword matched as a word and the destination running to the end. */
  function ProcessCommandByWord(
    command: string,
    search: string -> Fetch<seq<Stop>>,
    routesByStop: int -> Fetch<seq<Route>>): (reply: Reply)
    ensures reply.result == Error(NotUnderstood) <==> ParseByWord(Normalize(command)).None?
    ensures ParseByWord(Normalize(command)).Some? ==>
      reply.requests != [] && reply.requests[0] == SearchRequest(ParseByWord(Normalize(command)).value)
  {
    Answer(ParseByWord(Normalize(command)), search, routesByStop)
  }

  /** The word-based reading understands a command exactly when "to" stands in it as a word. */
  lemma ParseByWordFindsKeyword(n: string)
    ensures ParseByWord(n).Some? <==> exists i :: KeywordWordAt(n, i)
  {
    FirstKeywordWordIsFirst(n, 0);
  }

  /**
   * Matched as a word, the keyword after a lead-in without "to" yields the
   * whole rest of the command as the destination, even when the rest itself
   * contains the letters "to" (as "downtown" does).
   */
  lemma ByWordTakesTheRest(w: string, d: string)
    requires !Text.Includes(w, Keyword)
    ensures ParseByWord(w + " to " + d) == Some(Text.Trim(d))
  {
    KeywordFirstAfterLead(w, d);
    FirstWordDestination(w + " to " + d, |w| + 1);
    SpaceBeforeRest(w, d);
  }

  /** After a lead-in without "to", the first word "to" is the one that follows it. */
  lemma KeywordFirstAfterLead(w: string, d: string)
    requires !Text.Includes(w, Keyword)
    ensures KeywordWordAt(w + " to " + d, |w| + 1)
    ensures forall j :: 0 <= j < |w| + 1 ==> !KeywordWordAt(w + " to " + d, j)
  {
    var n := w + " to " + d;
    var k := |w| + 1;
    assert n[k] == 't' && n[k + 1] == 'o' && n[k - 1] == ' ' && n[k + 2] == ' ';
    forall j | 0 <= j < k
      ensures !KeywordWordAt(n, j)
    {
      if j + 2 <= |w| {
        Text.IncludesIff(w, Keyword);
        assert !Text.OccursAt(w, Keyword, j);
        assert w[j..j + 2] != Keyword;
        assert n[j] == w[j] && n[j + 1] == w[j + 1];
      } else if j == |w| - 1 {
        assert n[j + 1] == ' ';
      } else {
        assert n[j] == ' ';
      }
    }
  }

  lemma SpaceBeforeRest(w: string, d: string)
    ensures Text.Trim((w + " to " + d)[|w| + 3..]) == Text.Trim(d)
  {
    var sp := " to ";
    Text.DropConcat(w, sp, d, 3);
    assert sp[3..] + d + [] == sp[3..] + d;
    assert Text.AllWhitespace(sp[3..]) by { assert sp[3..][0] == ' '; }
    Text.TrimIgnoresPadding(sp[3..], d, []);
  }

  /** The destination follows the first word "to". */
  lemma FirstWordDestination(n: string, k: nat)
    requires KeywordWordAt(n, k)
    requires forall j :: 0 <= j < k ==> !KeywordWordAt(n, j)
    ensures ParseByWord(n) == Some(Text.Trim(n[k + 2..]))
  {
    FirstKeywordWordFinds(n, 0, k);
    ParseByWordAt(n, k);
  }

  lemma ParseByWordAt(n: string, k: nat)
    requires FirstKeywordWord(n, 0) == Some(k)
    ensures k + 2 <= |n| && ParseByWord(n) == Some(Text.Trim(n[k + 2..]))
  {
  }

  /** The search from `from` stops at the first word "to" at or after `from`. */
  lemma {:induction false} FirstKeywordWordFinds(n: string, from: nat, k: nat)
    requires from <= k && KeywordWordAt(n, k)
    requires forall j :: from <= j < k ==> !KeywordWordAt(n, j)
    ensures FirstKeywordWord(n, from) == Some(k)
    decreases k - from
  {
    if from < k {
      assert !KeywordWordAt(n, from);
      FirstKeywordWordFinds(n, from + 1, k);
    }
  }

  /**
   * Case and surrounding whitespace do not matter: a command padded with
   * whitespace on either side behaves as its lower-cased core.
   */
  lemma PaddingAndCaseIgnored(
    w1: string, command: string, w2: string,
    search: string -> Fetch<seq<Stop>>, routesByStop: int -> Fetch<seq<Route>>)
    requires Text.AllWhitespace(w1) && Text.AllWhitespace(w2)
    ensures ProcessCommand(w1 + command + w2, search, routesByStop)
         == ProcessCommand(Text.Lower(command), search, routesByStop)
    ensures ProcessCommandByWord(w1 + command + w2, search, routesByStop)
         == ProcessCommandByWord(Text.Lower(command), search, routesByStop)
  {
    Text.LowerAppend(w1 + command, w2);
    Text.LowerAppend(w1, command);
    Text.LowerKeepsWhitespace(w1);
    Text.LowerKeepsWhitespace(w2);
    Text.TrimIgnoresPadding(w1, Text.Lower(command), w2);
    Text.LowerIdempotent(command);
    assert Normalize(w1 + command + w2) == Normalize(Text.Lower(command));
  }

  /**
   * When a second "to" follows the first, the destination is the trimmed
   * text between the end of the first and the start of the second.
   */
  lemma DestinationBetweenKeywords(n: string, keyword: string, first: nat, next: nat)
    requires keyword == Keyword
    requires Text.IndexOf(n, keyword) == Some(first)
    requires Text.IndexOfFrom(n, keyword, first + |keyword|) == Some(next)
    ensures first + |keyword| <= next <= |n|
    ensures Destination(n) == Text.Trim(n[first + |keyword|..next])
  {
    Text.SecondPieceStopsAtNext(n, keyword, first, next);
  }

  /** With no second "to", the destination is the trimmed rest after the first. */
  lemma DestinationAfterOnlyKeyword(n: string, keyword: string, first: nat)
    requires keyword == Keyword
    requires Text.IndexOf(n, keyword) == Some(first)
    requires Text.IndexOfFrom(n, keyword, first + |keyword|).None?
    ensures first + |keyword| <= |n|
    ensures Destination(n) == Text.Trim(n[first + |keyword|..])
  {
    Text.SecondPieceRunsToEnd(n, keyword, first);
  }

  /**
   * A destination containing the letters "to" is cut short: in
   * "go to downtown" the command searches for "down" (characters 6 to 10),
   * where the word-based reading searches for "downtown" (6 to the end).
   */
  lemma DestinationCutAtInnerKeyword(c: string)
    requires c == "go to downtown"
    ensures Parse(c) == Some(c[6..10])
    ensures ParseByWord(c) == Some(c[6..])
    ensures c[6..10] != c[6..]
  {
    AsWrittenDestination(c);
    WordBasedDestination(c);
  }

  lemma WordBasedDestination(c: string)
    requires c == "go to downtown"
    ensures ParseByWord(c) == Some(c[6..])
  {
    ExampleFirstWord(c);
    FirstWordDestination(c, 3);
    ExampleRest(c);
  }

  lemma ExampleFirstWord(c: string)
    requires c == "go to downtown"
    ensures KeywordWordAt(c, 3)
    ensures forall j :: 0 <= j < 3 ==> !KeywordWordAt(c, j)
  {
    assert c[2] == ' ' && c[3] == 't' && c[4] == 'o' && c[5] == ' ';
    assert c[0] != 't' && c[1] != 't';
  }

  lemma ExampleRest(c: string)
    requires c == "go to downtown"
    ensures Text.Trim(c[5..]) == c[6..]
  {
    assert |c| == 14 && c[5] == ' ' && c[6] == 'd' && c[13] == 'n';
    Text.TrimOneSpaceToEnd(c, 5);
  }

  lemma AsWrittenDestination(c: string)
    requires c == "go to downtown"
    ensures Parse(c) == Some(c[6..10])
  {
    ExampleParse(c);
    assert c[5] == ' ' && c[6] == 'd' && c[9] == 'n';
    Text.TrimOneSpace(c, 5, 10);
  }

  lemma ExampleParse(c: string)
    requires c == "go to downtown"
    ensures Parse(c) == Some(Text.Trim(c[5..10]))
  {
    FirstKeywordInExample(c);
    NextKeywordInExample(c);
    DestinationBetweenKeywords(c, Keyword, 3, 10);
  }

  lemma FirstKeywordInExample(c: string)
    requires c == "go to downtown"
    ensures Text.IndexOf(c, Keyword) == Some(3)
  {
    assert Text.IndexOfFrom(c, Keyword, 3) == Some(3);
    assert !Text.OccursAt(c, Keyword, 2) by { assert c[2] != Keyword[0]; }
    assert Text.IndexOfFrom(c, Keyword, 2) == Some(3);
    assert !Text.OccursAt(c, Keyword, 1) by { assert c[1] != Keyword[0]; }
    assert Text.IndexOfFrom(c, Keyword, 1) == Some(3);
    assert !Text.OccursAt(c, Keyword, 0) by { assert c[0] != Keyword[0]; }
  }

  lemma NextKeywordInExample(c: string)
    requires c == "go to downtown"
    ensures Text.IndexOfFrom(c, Keyword, 5) == Some(10)
  {
    assert Text.IndexOfFrom(c, Keyword, 10) == Some(10);
    assert !Text.OccursAt(c, Keyword, 9) by { assert c[9] != Keyword[0]; }
    assert Text.IndexOfFrom(c, Keyword, 9) == Some(10);
    assert !Text.OccursAt(c, Keyword, 8) by { assert c[8] != Keyword[0]; }
    assert Text.IndexOfFrom(c, Keyword, 8) == Some(10);
    assert !Text.OccursAt(c, Keyword, 7) by { assert c[7] != Keyword[0]; }
    assert Text.IndexOfFrom(c, Keyword, 7) == Some(10);
    assert !Text.OccursAt(c, Keyword, 6) by { assert c[6] != Keyword[0]; }
    assert Text.IndexOfFrom(c, Keyword, 6) == Some(10);
    assert !Text.OccursAt(c, Keyword, 5) by { assert c[5] != Keyword[0]; }
  }

  /**
   * The cut can change which stop is found: in "from downtown to tsu campus"
   * the first "to" is inside "downtown", so the command searches for "wn"
   * (characters 11 to 13), where the word-based reading searches for
   * "tsu campus" (17 to the end).
   */
  lemma DestinationMissesTheStop(c: string)
    requires c == "from downtown to tsu campus"
    ensures Parse(c) == Some(c[11..13]) && c[11..13] == "wn"
    ensures ParseByWord(c) == Some(c[17..]) && c[17..] == "tsu campus"
  {
    SecondExampleAsWritten(c);
    SecondExampleByWord(c);
  }

  lemma SecondExampleAsWritten(c: string)
    requires c == "from downtown to tsu campus"
    ensures Parse(c) == Some(c[11..13]) && c[11..13] == "wn"
  {
    SecondExampleFirstKeyword(c);
    SecondExampleNextKeyword(c);
    DestinationBetweenKeywords(c, Keyword, 9, 14);
    SecondExampleTrimmedPiece(c);
  }

  lemma SecondExampleTrimmedPiece(c: string)
    requires c == "from downtown to tsu campus"
    ensures Text.Trim(c[11..14]) == c[11..13] && c[11..13] == "wn"
  {
    assert c[11..14] == [] + c[11..13] + c[13..14];
    assert Text.AllWhitespace(c[13..14]) by { assert c[13..14][0] == c[13] == ' '; }
    Text.TrimIgnoresPadding([], c[11..13], c[13..14]);
    assert c[11..13][0] == 'w' && c[11..13][1] == 'n';
    Text.TrimUnpadded(c[11..13]);
  }

  lemma SecondExampleFirstKeyword(c: string)
    requires c == "from downtown to tsu campus"
    ensures Text.IndexOf(c, Keyword) == Some(9)
  {
    forall j | 0 <= j < 9
      ensures !Text.OccursAt(c, Keyword, j)
    {
      assert c[j] != 't';
      assert c[j..j + 2][0] == c[j];
    }
    assert c[9..11] == Keyword by { assert c[9] == 't' && c[10] == 'o'; }
    Text.IndexOfFromFinds(c, Keyword, 0, 9);
  }

  lemma SecondExampleNextKeyword(c: string)
    requires c == "from downtown to tsu campus"
    ensures Text.IndexOfFrom(c, Keyword, 11) == Some(14)
  {
    forall j | 11 <= j < 14
      ensures !Text.OccursAt(c, Keyword, j)
    {
      assert c[j] != 't';
      assert c[j..j + 2][0] == c[j];
    }
    assert c[14..16] == Keyword by { assert c[14] == 't' && c[15] == 'o'; }
    Text.IndexOfFromFinds(c, Keyword, 11, 14);
  }

  lemma SecondExampleByWord(c: string)
    requires c == "from downtown to tsu campus"
    ensures ParseByWord(c) == Some(c[17..]) && c[17..] == "tsu campus"
  {
    SecondExampleKeywordWord(c);
    FirstWordDestination(c, 14);
    SecondExampleRest(c);
  }

  lemma SecondExampleKeywordWord(c: string)
    requires c == "from downtown to tsu campus"
    ensures KeywordWordAt(c, 14)
    ensures forall j :: 0 <= j < 14 ==> !KeywordWordAt(c, j)
  {
    assert c[13] == ' ' && c[14] == 't' && c[15] == 'o' && c[16] == ' ';
    forall j | 0 <= j < 14
      ensures !KeywordWordAt(c, j)
    {
      if j == 9 {
        assert c[8] == 'n';
      } else {
        assert c[j] != 't';
      }
    }
  }

  lemma SecondExampleRest(c: string)
    requires c == "from downtown to tsu campus"
    ensures Text.Trim(c[16..]) == c[17..] && c[17..] == "tsu campus"
  {
    assert |c| == 27 && c[16] == ' ' && c[17] == 't' && c[26] == 's';
    Text.TrimOneSpaceToEnd(c, 16);
  }

  /** The stop search the server offers: the store's search, refused (status 400) for an empty query. */
  ghost predicate SearchServedBy(store: Storage.MemStorage, search: string -> Fetch<seq<Stop>>)
    reads store
    requires store.Valid()
  {
    forall q :: search(q) == if q == [] then Failed else Fetched(store.SearchStops(q))
  }

  /** The by-stop route lookup the server offers: the store's `getRoutesByStop`. */
  ghost predicate RoutesServedBy(store: Storage.MemStorage, routesByStop: int -> Fetch<seq<Route>>)
    reads store
    requires store.Valid()
  {
    forall id :: routesByStop(id) == Fetched(store.GetRoutesByStop(id))
  }

  /**
   * Answered by the store, a command finds stored stops whose names contain
   * the destination and routes that start or end at the first of them; it
   * fails only when the destination is empty.
   */
  lemma AnsweredByStore(
    store: Storage.MemStorage, command: string,
    search: string -> Fetch<seq<Stop>>, routesByStop: int -> Fetch<seq<Route>>)
    requires store.Valid() && SearchServedBy(store, search) && RoutesServedBy(store, routesByStop)
    ensures var reply := ProcessCommand(command, search, routesByStop);
      var n := Normalize(command);
      && (reply.result == Error(LookupFailed) <==> Parse(n) == Some([]))
      && (reply.result.Found? ==>
            && (forall s :: s in reply.result.stops ==>
                  s in store.GetStops() && Storage.NameMatches(s, Destination(n)))
            && (forall r :: r in reply.result.routes ==>
                  r in store.GetRoutes() && Storage.Touches(r, reply.result.stops[0].id)))
  {
  }
}
