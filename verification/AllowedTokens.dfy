/**
 * The allowed-token list of a collection (`tokens.service.ts`, `mass-canceling.service.ts`): the check an entered
 * list has to pass, the two parsers that read the stored text, and what both say about it.
 */
module AllowedTokens {
  import opened Common
  import opened TokenText

  const MAX_TOKEN_NUMBER: int := 2147483647

  // ---------- the text and its pieces ----------

  /** What the regular expression of `addTokens` lets through. */
  predicate InAlphabet(s: string) {
    forall c :: c in s ==> IsDigit(c) || c == '-' || c == ','
  }

  predicate Dashed(s: string) {
    forall c :: c in s ==> IsDigit(c) || c == '-'
  }

  type Token = s: string | Dashed(s) witness ""

  /** `tokens.split(',')` */
  function Segments(s: string): (segments: seq<Token>)
    requires InAlphabet(s)
    ensures |segments| >= 1
  {
    SplitParts(s, ',');
    Split(s, ',')
  }

  /** `token.split('-')` */
  function Parts(token: Token): (parts: seq<Digits>)
    ensures |parts| >= 1
    ensures |parts| == 1 ==> parts[0] == token
  {
    SplitParts(token, '-');
    JoinSplit(token, '-');
    DigitParts(Split(token, '-'), token);
    Split(token, '-')
  }

  lemma DigitParts(parts: seq<string>, token: Token)
    requires forall i :: 0 <= i < |parts| ==> forall c :: c in parts[i] ==> c != '-' && c in token
    ensures forall i :: 0 <= i < |parts| ==> AllDigits(parts[i])
  {
    forall i, j | 0 <= i < |parts| && 0 <= j < |parts[i]| ensures IsDigit(parts[i][j]) {
      assert parts[i][j] in parts[i];
    }
  }

  // ---------- the check ----------

  datatype Fault = FirstTooLarge | LastTooLarge | MissingBound | ZeroInRange | Backwards | ZeroToken | TokenTooLarge

  /** JavaScript's `>` on results of `parseInt`: a comparison with NaN is false. */
  predicate Above(x: Option<int>, y: Option<int>) {
    x.Some? && y.Some? && x.value > y.value
  }

  /** What `checkoutTokens` finds wrong with one comma-separated piece. */
  function SegmentFault(token: Token): Option<Fault>
  {
    var parts := Parts(token);
    if |parts| > 1 then
      var first, last := ParseInt(parts[0]), ParseInt(parts[1]);
      if Above(first, Some(MAX_TOKEN_NUMBER)) then Some(FirstTooLarge)
      else if Above(last, Some(MAX_TOKEN_NUMBER)) then Some(LastTooLarge)
      else if parts[0] == "" || parts[1] == "" then Some(MissingBound)
      else if first == Some(0) || last == Some(0) then Some(ZeroInRange)
      else if Above(first, last) then Some(Backwards)
      else None
    else
      var number := ParseInt(token);
      if number == Some(0) then Some(ZeroToken)
      else if Above(number, Some(MAX_TOKEN_NUMBER)) then Some(TokenTooLarge)
      else None
  }

  /** A piece is good when it is empty, one token, or starts with a range; whatever follows a range is ignored. */
  predicate GoodSegment(token: Token)
  {
    var parts := Parts(token);
    if |parts| == 1 then
      token == "" || 1 <= Value(parts[0]) <= MAX_TOKEN_NUMBER
    else
      && parts[0] != "" && parts[1] != ""
      && 1 <= Value(parts[0]) <= Value(parts[1]) <= MAX_TOKEN_NUMBER
  }

  predicate Accepted(s: string) {
    InAlphabet(s) && forall i :: 0 <= i < |Segments(s)| ==> GoodSegment(Segments(s)[i])
  }

  lemma NoFaultIffGood(token: Token)
    ensures SegmentFault(token) == None <==> GoodSegment(token)
  {
    var parts := Parts(token);
    var first := parts[0];
    ParseWhole(first);
    if |parts| > 1 {
      var last := parts[1];
      ParseWhole(last);
    }
  }

  /** `checkoutTokens`: reports the fault of the first bad piece; a list passes exactly when every piece is good. */
  method CheckoutTokens(tokens: string) returns (fault: Option<Fault>)
    requires InAlphabet(tokens)
    ensures fault == None <==> Accepted(tokens)
    ensures fault.Some? ==> exists k :: 0 <= k < |Segments(tokens)| && SegmentFault(Segments(tokens)[k]) == fault &&
                                      forall j :: 0 <= j < k ==> GoodSegment(Segments(tokens)[j])
  {
    var arr := Segments(tokens);
    fault := None;
    for k := 0 to |arr|
      invariant fault == None && forall j :: 0 <= j < k ==> GoodSegment(arr[j])
    {
      NoFaultIffGood(arr[k]);
      fault := SegmentFault(arr[k]);
      if fault.Some? {
        return;
      }
    }
  }

  // ---------- the two parsers ----------

  function Up(a: int, b: int): (r: seq<int>)
    ensures |r| == if a <= b then b - a + 1 else 0
    ensures forall n :: n in r <==> a <= n <= b
    decreases b - a + 1
  {
    if a > b then [] else [a] + Up(a + 1, b)
  }

  function ParsedSegment(token: Token): seq<int>
  {
    ParsedParts(Parts(token))
  }

  function ParsedParts(parts: seq<Digits>): seq<int>
    requires |parts| >= 1
  {
    if |parts| > 1 then Up(Value(parts[0]), Value(parts[1])) else [Value(parts[0])]
  }

  function ParsedSegments(segments: seq<Token>): seq<int>
  {
    if segments == [] then [] else ParsedSegment(segments[0]) + ParsedSegments(segments[1..])
  }

  /** What the token service reads from a stored list. */
  function Parsed(s: string): seq<int>
    requires InAlphabet(s)
  {
    if s == "" then [] else ParsedSegments(Segments(s))
  }

  /** A range grows at its end, too. */
  lemma {:induction false} UpGrows(a: int, b: int)
    requires a <= b
    ensures Up(a, b) == Up(a, b - 1) + [b]
    decreases b - a
  {
    if a < b {
      UpGrows(a + 1, b);
    }
  }

  lemma {:induction false} ParsedPrefix(segments: seq<Token>, k: nat)
    requires k < |segments|
    ensures ParsedSegments(segments[..k + 1]) == ParsedSegments(segments[..k]) + ParsedSegment(segments[k])
  {
    if k > 0 {
      ParsedPrefix(segments[1..], k - 1);
      assert segments[..k + 1][1..] == segments[1..][..k];
      assert segments[..k][1..] == segments[1..][..k - 1];
    }
  }

  /** The inner loop of `parseStringAllowedTokens`. */
  method PushRange(before: seq<int>, start: int, end: int) returns (arrayDiff: seq<int>)
    ensures arrayDiff == before + Up(start, end)
  {
    arrayDiff := before;
    var i := start;
    while i <= end
      invariant start <= i && (start <= end ==> i <= end + 1) && (end < start ==> i == start)
      invariant arrayDiff == before + Up(start, i - 1)
    {
      UpGrows(start, i);
      arrayDiff := arrayDiff + [i];
      i := i + 1;
    }
  }

  /** `parseStringAllowedTokens` */
  method ParseStringAllowedTokens(allowedTokens: string) returns (arrayDiff: seq<int>)
    requires InAlphabet(allowedTokens)
    ensures arrayDiff == Parsed(allowedTokens)
  {
    arrayDiff := [];
    var tokens := if allowedTokens != "" then Segments(allowedTokens) else [];
    for k := 0 to |tokens|
      invariant arrayDiff == ParsedSegments(tokens[..k])
    {
      ParsedPrefix(tokens, k);
      var rangeNum := Parts(tokens[k]);
      if |rangeNum| > 1 {
        arrayDiff := PushRange(arrayDiff, Value(rangeNum[0]), Value(rangeNum[1]));
      } else {
        arrayDiff := arrayDiff + [Value(tokens[k])];
      }
    }
    assert tokens[..|tokens|] == tokens;
  }

  /** A piece both parsers can read starts with a number, and `parseInt` of the piece is that number. */
  lemma LeadingNumber(token: Token)
    requires GoodSegment(token) && token != ""
    ensures var parts := Parts(token);
      && parts[0] != "" && NonEmpty(parts) != [] && NonEmpty(parts)[0] == parts[0]
      && ParseInt(token) == Some(Value(parts[0]))
  {
    var parts := Parts(token);
    JoinSplit(token, '-');
    if |parts| == 1 {
      ParseWhole(token);
    } else {
      ParseDigits(parts[0], ['-'] + Join(parts[1..], '-'));
      assert token == parts[0] + (['-'] + Join(parts[1..], '-'));
    }
  }

  predicate Readable(token: string) {
    Dashed(token) && GoodSegment(token) && token != ""
  }

  type Piece = s: string | Readable(s) witness "1"

  /** `token.match(/\d+/g)`: the runs of digits. */
  function DigitRuns(token: Token): seq<Digits>
  {
    NonEmptyParts(Parts(token));
    NonEmpty(Parts(token))
  }

  function ListedSegment(token: Piece): seq<int>
  {
    var runs := DigitRuns(token);
    LeadingNumber(token);
    if |runs| == 2 then Up(Value(runs[0]), Value(runs[1])) else [ParseInt(token).value]
  }

  function ListedSegments(segments: seq<Piece>): seq<int>
  {
    if segments == [] then [] else ListedSegment(segments[0]) + ListedSegments(segments[1..])
  }

  /** What the mass-canceling service matches in the stored list: its non-empty pieces. */
  function Matches(s: string): seq<Piece>
    requires Accepted(s)
  {
    NonEmptyParts(Segments(s));
    NonEmpty(Segments(s))
  }

  /** What the mass-canceling service reads; with nothing to match it fails on iterating over null. */
  function Listed(s: string): Result<seq<int>>
    requires Accepted(s)
  {
    if Matches(s) == [] then Err else Ok(ListedSegments(Matches(s)))
  }

  lemma {:induction false} ListedPrefix(segments: seq<Piece>, k: nat)
    requires k < |segments|
    ensures ListedSegments(segments[..k + 1]) == ListedSegments(segments[..k]) + ListedSegment(segments[k])
  {
    if k > 0 {
      ListedPrefix(segments[1..], k - 1);
      assert segments[..k + 1][1..] == segments[1..][..k];
      assert segments[..k][1..] == segments[1..][..k - 1];
    }
  }

  /** `range` */
  method Range(start: int, end: int) returns (list: seq<int>)
    ensures list == Up(start, end)
  {
    list := [];
    var i := start;
    while i < end + 1
      invariant start <= i && (start <= end ==> i <= end + 1) && (end < start ==> i == start)
      invariant list == Up(start, i - 1)
    {
      UpGrows(start, i);
      list := list + [i];
      i := i + 1;
    }
  }

  /** `allowedTokensInList` */
  method AllowedTokensInList(allowedTokens: string) returns (result: Result<seq<int>>)
    requires Accepted(allowedTokens)
    ensures result == Listed(allowedTokens)
  {
    var pieces := Matches(allowedTokens);
    if pieces == [] {
      return Err;
    }
    var allowedList := [];
    for k := 0 to |pieces|
      invariant allowedList == ListedSegments(pieces[..k])
    {
      ListedPrefix(pieces, k);
      LeadingNumber(pieces[k]);
      var rangeNumber := DigitRuns(pieces[k]);
      if |rangeNumber| == 2 {
        var list := Range(Value(rangeNumber[0]), Value(rangeNumber[1]));
        allowedList := allowedList + list;
      } else {
        allowedList := allowedList + [ParseInt(pieces[k]).value];
      }
    }
    assert pieces[..|pieces|] == pieces;
    result := Ok(allowedList);
  }

  // ---------- when the two parsers agree ----------

  /** A piece is read alike when it is not empty and, if a third number follows its range, the range is one token. */
  predicate ReadAlike(token: Token)
  {
    token != "" && (|DigitRuns(token)| >= 3 ==> |Parts(token)| >= 2 && Value(Parts(token)[0]) == Value(Parts(token)[1]))
  }

  lemma SegmentReadings(token: Piece)
    ensures ReadAlike(token) ==> ParsedSegment(token) == ListedSegment(token)
    ensures !ReadAlike(token) ==> |ParsedSegment(token)| > |ListedSegment(token)|
  {
    LeadingNumber(token);
    var parts := Parts(token);
    if |parts| > 1 {
      assert NonEmpty(parts) == [parts[0]] + NonEmpty(parts[1..]);
      assert NonEmpty(parts[1..]) == [parts[1]] + NonEmpty(parts[1..][1..]);
      if |DigitRuns(token)| >= 3 && ReadAlike(token) {
        assert Up(Value(parts[0]) + 1, Value(parts[1])) == [];
      }
    } else {
      assert NonEmpty(parts) == [parts[0]] + NonEmpty(parts[1..]);
    }
  }

  lemma {:induction false} SegmentsReadings(segments: seq<Token>, pieces: seq<Piece>)
    requires pieces == NonEmpty(segments)
    ensures |ParsedSegments(segments)| >= |ListedSegments(pieces)|
    ensures if forall i :: 0 <= i < |segments| ==> ReadAlike(segments[i])
      then ParsedSegments(segments) == ListedSegments(pieces)
      else |ParsedSegments(segments)| > |ListedSegments(pieces)|
  {
    if segments != [] {
      var rest := segments[1..];
      assert (forall i :: 0 <= i < |segments| ==> ReadAlike(segments[i])) <==>
             ReadAlike(segments[0]) && forall i :: 0 <= i < |rest| ==> ReadAlike(rest[i]) by {
        assert forall i :: 0 <= i < |rest| ==> rest[i] == segments[i + 1];
        assert forall i :: 1 <= i < |segments| ==> segments[i] == rest[i - 1];
      }
      if segments[0] == "" {
        SegmentsReadings(rest, pieces);
      } else {
        SegmentReadings(pieces[0]);
        assert pieces[1..] == NonEmpty(rest);
        SegmentsReadings(rest, pieces[1..]);
      }
    }
  }

  /** On every list the check accepts, the two parsers agree exactly when each piece is read alike. */
  lemma ParsersAgreeIff(s: string)
    requires Accepted(s)
    ensures Listed(s) == Ok(Parsed(s)) <==> forall i :: 0 <= i < |Segments(s)| ==> ReadAlike(Segments(s)[i])
  {
    var segments := Segments(s);
    SegmentsReadings(segments, Matches(s));
    if s == "" {
      assert segments == [""];
    }
    if Matches(s) == [] {
      assert segments[0] == "" by {
        assert segments[0] != "" ==> NonEmpty(segments) != [];
      }
    }
  }

  /** A range followed by a third number: the check lets it through, one parser reads three tokens, the other one. */
  lemma ThirdNumberIsReadTwice()
    ensures Accepted("1-3-2") && Parsed("1-3-2") == [1, 2, 3] && Listed("1-3-2") == Ok([1])
  {
    var token := "1-3-2";
    SplitOne(token, ',');
    assert Segments(token) == [token];
    ThirdNumberParts();
    assert Readable(token) && Accepted(token);
    assert Up(1, 3) == [1, 2, 3];
    LeadingNumber(token);
    assert ParseInt(token) == Some(1);
    assert ListedSegment(token) == [1];
    assert Matches(token) == [token];
    assert ListedSegments(Matches(token)) == [1];
    assert ParsedSegments([token]) == ParsedSegment(token) + [];
  }

  lemma ThirdNumberParts()
    ensures Dashed("1-3-2") && Parts("1-3-2") == ["1", "3", "2"] && |DigitRuns("1-3-2")| == 3
    ensures AllDigits("1") && AllDigits("3") && Value("1") == 1 && Value("3") == 3
  {
    SplitOne("2", '-');
    SplitFirst("3", "2", '-');
    SplitFirst("1", "3-2", '-');
    assert "1" + ['-'] + "3-2" == "1-3-2" && "3" + ['-'] + "2" == "3-2";
    assert ["1", "3", "2"][1..] == ["3", "2"] && ["3", "2"][1..] == ["2"];
    assert NonEmpty(["3", "2"]) == ["3"] + NonEmpty(["2"]);
  }

  // ---------- well-formed lists ----------

  datatype Item = One(token: nat) | Span(first: nat, last: nat)

  predicate ItemOk(item: Item) {
    match item
    case One(token) => 1 <= token <= MAX_TOKEN_NUMBER
    case Span(first, last) => 1 <= first <= last <= MAX_TOKEN_NUMBER
  }

  predicate ItemCovers(item: Item, token: int) {
    match item
    case One(n) => token == n
    case Span(first, last) => first <= token <= last
  }

  function PrintItem(item: Item): string {
    match item
    case One(token) => Decimal(token)
    case Span(first, last) => Decimal(first) + ['-'] + Decimal(last)
  }

  function PrintItems(items: seq<Item>): (texts: seq<string>)
    ensures |texts| == |items| && forall i :: 0 <= i < |items| ==> texts[i] == PrintItem(items[i])
  {
    if items == [] then [] else [PrintItem(items[0])] + PrintItems(items[1..])
  }

  /** A list as an administrator writes it: `n` and `a-b` items with commas between them. */
  function Print(items: seq<Item>): string
    requires items != []
  {
    Join(PrintItems(items), ',')
  }

  function ExpandItem(item: Item): seq<int> {
    match item
    case One(token) => [token]
    case Span(first, last) => Up(first, last)
  }

  function Expand(items: seq<Item>): seq<int> {
    if items == [] then [] else ExpandItem(items[0]) + Expand(items[1..])
  }

  predicate Covered(items: seq<Item>, token: int) {
    exists i :: 0 <= i < |items| && ItemCovers(items[i], token)
  }

  lemma {:induction false} ExpandCovers(items: seq<Item>, token: int)
    ensures token in Expand(items) <==> Covered(items, token)
  {
    if items != [] {
      ExpandCovers(items[1..], token);
      assert token in ExpandItem(items[0]) <==> ItemCovers(items[0], token);
      assert forall i :: 1 <= i < |items| ==> items[i] == items[1..][i - 1];
      assert forall i :: 0 <= i < |items[1..]| ==> items[1..][i] == items[i + 1];
    }
  }

  lemma DigitsOnly(s: Digits)
    ensures '-' !in s && ',' !in s && Dashed(s)
  {
  }

  lemma OneIsRead(n: nat)
    requires ItemOk(One(n))
    ensures var token := Decimal(n);
      && Readable(token) && ',' !in token && InAlphabet(token)
      && ParsedSegment(token) == ListedSegment(token) == [n]
  {
    var token := Decimal(n);
    DigitsOnly(token);
    DecimalValue(n);
    SplitOne(token, '-');
    assert Readable(token);
    LeadingNumber(token);
    assert NonEmpty([token]) == [token];
  }

  lemma SpanIsRead(first: nat, last: nat)
    requires ItemOk(Span(first, last))
    ensures var token := PrintItem(Span(first, last));
      && Readable(token) && ',' !in token && InAlphabet(token)
      && ParsedSegment(token) == ListedSegment(token) == Up(first, last)
  {
    var a, b := Decimal(first), Decimal(last);
    DigitsOnly(a);
    DigitsOnly(b);
    DecimalValue(first);
    DecimalValue(last);
    SplitOne(b, '-');
    SplitFirst(a, b, '-');
    var token := a + ['-'] + b;
    assert Parts(token) == [a, b];
    assert Readable(token);
    assert NonEmpty([a, b]) == [a] + NonEmpty([b]);
  }

  lemma ItemIsRead(item: Item)
    requires ItemOk(item)
    ensures var token := PrintItem(item);
      && Readable(token) && ',' !in token && InAlphabet(token)
      && ParsedSegment(token) == ListedSegment(token) == ExpandItem(item)
  {
    match item
    case One(n) => OneIsRead(n);
    case Span(first, last) => SpanIsRead(first, last);
  }

  lemma {:induction false} ItemsAreRead(items: seq<Item>)
    requires forall i :: 0 <= i < |items| ==> ItemOk(items[i])
    ensures var texts := PrintItems(items);
      && (forall i :: 0 <= i < |texts| ==> Readable(texts[i]) && ',' !in texts[i] && InAlphabet(texts[i]))
      && NonEmpty(texts) == texts && ParsedSegments(texts) == ListedSegments(texts) == Expand(items)
  {
    if items != [] {
      ItemIsRead(items[0]);
      ItemsAreRead(items[1..]);
      assert PrintItems(items)[1..] == PrintItems(items[1..]);
    }
  }

  lemma {:induction false} JoinKeepsAlphabet(texts: seq<string>)
    requires texts != [] && forall i :: 0 <= i < |texts| ==> InAlphabet(texts[i])
    ensures InAlphabet(Join(texts, ','))
  {
    if |texts| > 1 {
      JoinKeepsAlphabet(texts[1..]);
    }
  }

  function PrintedPieces(items: seq<Item>): (texts: seq<Piece>)
    requires forall i :: 0 <= i < |items| ==> ItemOk(items[i])
    ensures texts == PrintItems(items)
  {
    ItemsAreRead(items);
    PrintItems(items)
  }

  /** Every well-formed list is accepted, and both parsers read it as the tokens it denotes, in order. */
  lemma PrintedListsAreRead(items: seq<Item>)
    requires items != [] && forall i :: 0 <= i < |items| ==> ItemOk(items[i])
    ensures Accepted(Print(items))
    ensures Parsed(Print(items)) == Expand(items)
    ensures Listed(Print(items)) == Ok(Expand(items))
  {
    var texts: seq<Piece> := PrintedPieces(items);
    ItemsAreRead(items);
    JoinKeepsAlphabet(texts);
    SplitJoin(texts, ',');
    var list := Print(items);
    assert Segments(list) == texts;
    assert Accepted(list);
    assert Matches(list) == texts;
    assert list != "" by {
      assert texts[0] != "" && Split("", ',')[0] == "";
    }
  }
}
