/**
 * `rest_server.py`: the server that hands the staged CSV file to the merging
 * machine. `get_bus_data` reads or deletes the file, a deletion waiting until
 * the wall-clock second lies in [10, 45]; `do_GET` serves the file and
 * `do_DELETE` deletes it only for a token that decodes to today's date.
 */
module RestServer {
  import opened Wrappers
  import opened Builtins
  import opened DateTimes

  /** The server's copy of the staged file: its bytes, or `None` when it does not exist. */
  class SourceFile {
    var content: Option<string>

    constructor (content: Option<string>)
      ensures this.content == content
    {
      this.content := content;
    }
  }

  // ---------------------------------------------------------------------------
  // get_bus_data

  /** What `get_bus_data` raises: both modes asked for, no file to read, or a failed read. */
  datatype BusDataError = BothModes | FileNotFound | ReadFailed(name: string)

  /** What `get_bus_data` returns: the file's bytes, whether the delete removed it, or `None`. */
  datatype BusData = Content(bytes: string) | Removed(removed: bool) | NoResult

  /** The deletion window on the wall-clock second. */
  predicate InWindow(second: int)
  {
    10 <= second <= 45
  }

  /** The successive readings of `datetime.today().second`. */
  predicate SecondReadings(seconds: seq<int>)
  {
    forall k :: 0 <= k < |seconds| ==> 0 <= seconds[k] < 60
  }

  predicate ReachesWindow(seconds: seq<int>)
  {
    exists k :: 0 <= k < |seconds| && InWindow(seconds[k])
  }

  /** The first reading inside the window: the one the polling loop stops at. */
  function FirstInWindow(seconds: seq<int>): (i: nat)
    requires ReachesWindow(seconds)
    ensures i < |seconds| && InWindow(seconds[i])
    ensures forall j :: 0 <= j < i ==> !InWindow(seconds[j])
  {
    if InWindow(seconds[0]) then 0
    else
      assert ReachesWindow(seconds[1..]) by {
        var k :| 0 <= k < |seconds| && InWindow(seconds[k]);
        assert seconds[1..][k - 1] == seconds[k];
      }
      1 + FirstInWindow(seconds[1..])
  }

  /**
   * The logged estimate of the wait: `10 - seconds`, raised by 60 until it is
   * not negative.
   */
  method WaitEstimate(seconds: int) returns (estimation: int)
    ensures estimation >= 0 && (estimation - (10 - seconds)) % 60 == 0
    ensures 10 - seconds >= 0 ==> estimation == 10 - seconds
    ensures 10 - seconds < 0 ==> estimation < 60
    ensures 0 <= seconds < 60 ==> estimation == (10 - seconds) % 60
  {
    estimation := 10 - seconds;
    while estimation < 0
      invariant (estimation - (10 - seconds)) % 60 == 0
      invariant 10 - seconds >= 0 ==> estimation == 10 - seconds
      invariant 10 - seconds < 0 ==> estimation < 60
      decreases -estimation
    {
      estimation := estimation + 60;
    }
  }

  /** What `get_bus_data(get, delete)` returns or raises, given the file before the call. */
  function BusDataOutcome(get: bool, delete: bool, content: Option<string>, readError: Option<string>)
    : Result<BusData, BusDataError>
  {
    if get && delete then Err(BothModes)
    else if get then
      if content.None? then Err(FileNotFound)
      else if readError.Some? then Err(ReadFailed(readError.value))
      else Ok(Content(content.value))
    else if delete then Ok(Removed(content.Some?))
    else Ok(NoResult)
  }

  /**
   * `get_bus_data(get, delete)`. A read that raises is `readError` (the
   * exception's name); `seconds` are the successive readings of the clock.
   * Besides the result: the index of the reading the deletion went ahead at,
   * and the estimate logged before the first wait, if there was a wait.
   */
  method GetBusData(get: bool, delete: bool, file: SourceFile, readError: Option<string>, seconds: seq<int>)
    returns (r: Result<BusData, BusDataError>, used: nat, estimate: Option<int>)
    modifies file
    requires delete && !get ==> SecondReadings(seconds) && ReachesWindow(seconds)
    ensures r == BusDataOutcome(get, delete, old(file.content), readError)
    ensures file.content == if delete && !get then None else old(file.content)
    ensures delete && !get ==>
              used == FirstInWindow(seconds)
              && estimate == if InWindow(seconds[0]) then None else Some((10 - seconds[0]) % 60)
  {
    used, estimate := 0, None;
    if get && delete {
      return Err(BothModes), used, estimate;
    }
    if get {
      if file.content.None? {
        return Err(FileNotFound), used, estimate;
      }
      if readError.Some? {
        return Err(ReadFailed(readError.value)), used, estimate;
      }
      return Ok(Content(file.content.value)), used, estimate;
    }
    if !delete {
      return Ok(NoResult), used, estimate;
    }
    var i := 0;
    var s := seconds[0];
    while !InWindow(s)
      invariant 0 <= i <= FirstInWindow(seconds) && s == seconds[i]
      invariant i == 0 ==> estimate == None
      invariant i > 0 ==> estimate == Some((10 - seconds[0]) % 60)
      invariant file.content == old(file.content)
      decreases FirstInWindow(seconds) - i
    {
      if i == 0 {
        var e := WaitEstimate(s);
        estimate := Some(e);
      }
      s := seconds[i + 1];
      i := i + 1;
    }
    used := i;
    var removed := file.content.Some?;
    file.content := None;
    r := Ok(Removed(removed));
  }

  // ---------------------------------------------------------------------------
  // parse_post_data

  /** The value of a hexadecimal digit of either case. */
  function HexValue(c: char): (v: Option<nat>)
    ensures v.Some? ==> v.value < 16
  {
    if '0' <= c <= '9' then Some(c as int - '0' as int)
    else if 'a' <= c <= 'f' then Some(c as int - 'a' as int + 10)
    else if 'A' <= c <= 'F' then Some(c as int - 'A' as int + 10)
    else None
  }

  /** Whether `s` starts with a `%XX` escape of a character below 0x80. */
  predicate AsciiEscapeAt(s: string)
  {
    |s| >= 3 && s[0] == '%' && HexValue(s[1]).Some? && HexValue(s[2]).Some?
    && HexValue(s[1]).value * 16 + HexValue(s[2]).value < 0x80
  }

  /** `urllib.parse.unquote` for escapes of ASCII characters; anything else stays as written. */
  function Unquote(s: string): string
  {
    if s == [] then []
    else if AsciiEscapeAt(s) then [(HexValue(s[1]).value * 16 + HexValue(s[2]).value) as char] + Unquote(s[3..])
    else [s[0]] + Unquote(s[1..])
  }

  /** The characters `quote_plus` leaves unescaped. */
  predicate Unreserved(c: char)
  {
    ('a' <= c <= 'z') || ('A' <= c <= 'Z') || ('0' <= c <= '9') || c == '-' || c == '_' || c == '.' || c == '~'
  }

  /** An upper-case hexadecimal digit, as `quote_plus` writes it. */
  function HexUpper(d: nat): (c: char)
    requires d < 16
    ensures HexValue(c) == Some(d)
  {
    if d < 10 then ('0' as int + d) as char else ('A' as int + d - 10) as char
  }

  /**
   * `urllib.parse.quote_plus` of an ASCII value, as `requests` encodes a form
   * field: a space becomes `+`, every other reserved character a `%XX` escape.
   */
  function Quote(s: string): (q: string)
    requires forall i :: 0 <= i < |s| ==> s[i] < '\U{80}'
    ensures '&' !in q && '=' !in q && ' ' !in q
  {
    if s == [] then []
    else
      var head :=
        if Unreserved(s[0]) then [s[0]]
        else if s[0] == ' ' then "+"
        else ['%', HexUpper(s[0] as int / 16), HexUpper(s[0] as int % 16)];
      head + Quote(s[1..])
  }

  /** `s` with every space replaced by `+`. */
  function PlusForSpace(s: string): (r: string)
    ensures |r| == |s|
    ensures forall i :: 0 <= i < |s| ==> r[i] == if s[i] == ' ' then '+' else s[i]
  {
    if s == [] then [] else [if s[0] == ' ' then '+' else s[0]] + PlusForSpace(s[1..])
  }

  /** Text without a space is left alone. */
  lemma PlusForSpaceWithoutSpace(s: string)
    requires ' ' !in s
    ensures PlusForSpace(s) == s
  {
  }

  /**
   * The server decodes with `unquote`, which does not turn `+` back into a
   * space: decoding what `quote_plus` encodes gives the value back with each
   * space as `+`.
   */
  lemma {:induction false} UnquoteQuote(s: string)
    requires forall i :: 0 <= i < |s| ==> s[i] < '\U{80}'
    ensures Unquote(Quote(s)) == PlusForSpace(s)
  {
    if s != [] {
      var c := s[0];
      var rest := Quote(s[1..]);
      UnquoteQuote(s[1..]);
      assert PlusForSpace(s) == [if c == ' ' then '+' else c] + PlusForSpace(s[1..]);
      if Unreserved(c) || c == ' ' {
        var h := if c == ' ' then '+' else c;
        assert Quote(s) == [h] + rest;
        assert !AsciiEscapeAt([h] + rest);
        assert ([h] + rest)[1..] == rest;
      } else {
        var e := ['%', HexUpper(c as int / 16), HexUpper(c as int % 16)];
        assert Quote(s) == e + rest;
        assert AsciiEscapeAt(e + rest);
        assert (e + rest)[3..] == rest;
      }
    }
  }

  /**
   * The dictionary the loop of `parse_post_data` builds from the remaining
   * `pairs`, starting from `acc`: a pair without `=` is skipped, a pair with
   * two or more makes the unpacking raise, which ends the parse with what was
   * collected so far, and a later key overwrites an earlier one.
   */
  function Parsed(pairs: seq<string>, acc: map<string, string>): map<string, string>
    decreases |pairs|
  {
    if pairs == [] then acc
    else
      var parts := Split(pairs[0], '=');
      if |parts| == 1 then Parsed(pairs[1..], acc)
      else if |parts| > 2 then acc
      else Parsed(pairs[1..], acc[parts[0] := Unquote(parts[1])])
  }

  /** The dictionary `parse_post_data` returns for the decoded request body. */
  function PostData(body: string): map<string, string>
  {
    Parsed(Split(body, '&'), map[])
  }

  /** `MyServer.parse_post_data()` over the decoded body. */
  method ParsePostData(body: string) returns (post: map<string, string>)
    ensures post == PostData(body)
  {
    var pairs := Split(body, '&');
    post := map[];
    var i := 0;
    while i < |pairs|
      invariant 0 <= i <= |pairs|
      invariant Parsed(pairs[i..], post) == PostData(body)
    {
      assert pairs[i..][1..] == pairs[i + 1..];
      var pair := pairs[i];
      if '=' !in pair {
        i := i + 1;
        continue;
      }
      var parts := Split(pair, '=');
      if |parts| != 2 {
        return;
      }
      post := post[parts[0] := Unquote(parts[1])];
      i := i + 1;
    }
  }

  /** A pair whose unpacking raises: it holds at least two `=`. */
  predicate Stops(pair: string)
  {
    |Split(pair, '=')| > 2
  }

  /** The first pair with two `=` ends the parse: nothing from it onwards counts. */
  lemma {:induction false} ParsedStops(pairs: seq<string>, acc: map<string, string>, k: nat)
    requires k < |pairs| && Stops(pairs[k])
    requires forall j :: 0 <= j < k ==> !Stops(pairs[j])
    ensures Parsed(pairs, acc) == Parsed(pairs[..k], acc)
  {
    if k > 0 {
      var parts := Split(pairs[0], '=');
      assert pairs[..k][1..] == pairs[1..][..k - 1];
      if |parts| == 1 {
        ParsedStops(pairs[1..], acc, k - 1);
      } else {
        ParsedStops(pairs[1..], acc[parts[0] := Unquote(parts[1])], k - 1);
      }
    }
  }

  /**
   * After pairs none of which ends the parse, a final `key=value` pair sets
   * `key` to the decoded value, whatever earlier pairs set it to.
   */
  lemma {:induction false} ParsedLastWins(pairs: seq<string>, acc: map<string, string>, key: string, value: string)
    requires forall j :: 0 <= j < |pairs| ==> !Stops(pairs[j])
    requires '=' !in key && '=' !in value
    ensures Parsed(pairs + [key + "=" + value], acc) == Parsed(pairs, acc)[key := Unquote(value)]
  {
    SplitPair(key, value);
    if pairs == [] {
      assert [key + "=" + value][1..] == [];
    } else {
      var parts := Split(pairs[0], '=');
      assert (pairs + [key + "=" + value])[1..] == pairs[1..] + [key + "=" + value];
      if |parts| == 1 {
        ParsedLastWins(pairs[1..], acc, key, value);
      } else {
        ParsedLastWins(pairs[1..], acc[parts[0] := Unquote(parts[1])], key, value);
      }
    }
  }

  /** A pair without `=` changes nothing, wherever it stands before the end of the parse. */
  lemma {:induction false} ParsedSkips(pairs: seq<string>, acc: map<string, string>, pair: string)
    requires forall j :: 0 <= j < |pairs| ==> !Stops(pairs[j])
    requires '=' !in pair
    ensures Parsed(pairs + [pair], acc) == Parsed(pairs, acc)
  {
    if pairs == [] {
      assert [pair][1..] == [];
    } else {
      var parts := Split(pairs[0], '=');
      assert (pairs + [pair])[1..] == pairs[1..] + [pair];
      if |parts| == 1 {
        ParsedSkips(pairs[1..], acc, pair);
      } else {
        ParsedSkips(pairs[1..], acc[parts[0] := Unquote(parts[1])], pair);
      }
    }
  }

  /** `key=value` splits on `=` into its two halves. */
  lemma SplitPair(key: string, value: string)
    requires '=' !in key && '=' !in value
    ensures Split(key + "=" + value, '=') == [key, value]
  {
    SplitJoin([key, value], '=');
    assert Join([key, value], ['=']) == key + "=" + value;
  }

  lemma NotInAppend(a: string, b: string, c: char)
    requires c !in a && c !in b
    ensures c !in a + b
  {
  }

  /**
   * The body a client sends for a one-field form `data={key: t}` parses back to
   * that field, its value with each space read as `+`.
   */
  lemma FieldBody(key: string, t: string)
    requires '=' !in key && '&' !in key
    requires forall i :: 0 <= i < |t| ==> t[i] < '\U{80}'
    ensures PostData(key + "=" + Quote(t)) == map[key := PlusForSpace(t)]
  {
    var q := Quote(t);
    var body := key + "=" + q;
    assert '&' !in body by {
      NotInAppend(key, "=", '&');
      NotInAppend(key + "=", q, '&');
    }
    assert PostData(body) == Parsed([body], map[]) by {
      SplitWithout(body, '&');
    }
    ParsedSingle(key, q, map[]);
    UnquoteQuote(t);
  }

  /** The form field `delete` reads holds neither separator. */
  lemma TokenKey()
    ensures '=' !in "token" && '&' !in "token"
  {
  }

  /**
   * In particular `data={'token': t}` gives back the token when it holds no
   * space, as a Fernet token (URL-safe base64) never does.
   */
  lemma TokenBody(t: string)
    requires forall i :: 0 <= i < |t| ==> t[i] < '\U{80}'
    ensures PostData("token" + "=" + Quote(t)) == map["token" := PlusForSpace(t)]
    ensures ' ' !in t ==> PostData("token" + "=" + Quote(t)) == map["token" := t]
  {
    TokenKey();
    FieldBody("token", t);
    if ' ' !in t {
      PlusForSpaceWithoutSpace(t);
    }
  }

  /** A space in a field value arrives as `+`: `data={'token': 'a b'}` is read as `a+b`. */
  lemma SpaceArrivesAsPlus()
    ensures PostData("token=" + Quote("a b")) == map["token" := "a+b"]
  {
    TokenBody("a b");
    assert "token" + "=" + Quote("a b") == "token=" + Quote("a b");
    assert PlusForSpace("a b") == "a+b";
  }

  /** A body holding one `key=value` pair sets just that key. */
  lemma ParsedSingle(key: string, value: string, acc: map<string, string>)
    requires '=' !in key && '=' !in value
    ensures Parsed([key + "=" + value], acc) == acc[key := Unquote(value)]
  {
    SplitPair(key, value);
    assert [key + "=" + value][1..] == [];
  }

  lemma SplitWithout(s: string, sep: char)
    requires sep !in s
    ensures Split(s, sep) == [s]
  {
  }

  // ---------------------------------------------------------------------------
  // Replies

  /** What a handler sends: an error page (`send_error`) or a page with a content type. */
  datatype Reply = ErrorPage(code: int, message: string) | Page(code: int, contentType: string, body: string)

  /**
   * The error page `do_GET` sends for an exception named `name` out of
   * `get_bus_data`: `except FileNotFoundError` answers 404, any other 500.
   */
  function CaughtPage(name: string): (reply: Reply)
    ensures reply.ErrorPage?
    ensures reply.code == 404 <==> name == "FileNotFoundError"
    ensures reply.code != 404 ==> reply.code == 500 && reply.message == "Exception caught: " + name
  {
    if name == "FileNotFoundError" then ErrorPage(404, "File not found.")
    else ErrorPage(500, "Exception caught: " + name)
  }

  /** The reply `do_GET` sends once it asks `get_bus_data(get=True)`. */
  function Served(content: Option<string>, readError: Option<string>): (reply: Reply)
    ensures reply.code == 404 <==> content.None? || readError == Some("FileNotFoundError")
    ensures reply.code == 200 <==> content.Some? && readError.None?
    ensures reply.code == 200 ==> reply == Page(200, "text/plain", content.value)
    ensures reply.code == 200 || reply.code == 404 || reply.code == 500
  {
    match BusDataOutcome(true, false, content, readError)
    case Err(FileNotFound) => ErrorPage(404, "File not found.")
    case Err(ReadFailed(name)) => CaughtPage(name)
    case Err(BothModes) => ErrorPage(500, "Exception caught: ValueError")
    case Ok(data) => Page(200, "text/plain", if data.Content? then data.bytes else [])
  }

  /**
   * The replies `do_GET` writes, in order, as written: a path containing
   * `favicon.ico` gets the icon; any other path but `/` gets a 400 error, after
   * which the handler goes on to serve the file as for `/`.
   */
  function GetReplies(path: string, content: Option<string>, readError: Option<string>, icon: string)
    : seq<Reply>
  {
    if ContainsSub(path, "favicon.ico") then [Page(200, "image/png", icon)]
    else if path != "/" then [ErrorPage(400, "Invalid URL"), Served(content, readError)]
    else [Served(content, readError)]
  }

  /** `do_GET` with the `return` after the 400 error it evidently lacks. */
  function GetRepliesIntended(path: string, content: Option<string>, readError: Option<string>, icon: string)
    : (replies: seq<Reply>)
    ensures |replies| == 1
    ensures !ContainsSub(path, "favicon.ico") && path != "/" ==> replies[0].code == 400
    ensures path == "/" ==> replies[0] == Served(content, readError)
  {
    if ContainsSub(path, "favicon.ico") then [Page(200, "image/png", icon)]
    else if path != "/" then [ErrorPage(400, "Invalid URL")]
    else [Served(content, readError)]
  }

  /**
   * `MyServer.do_GET()` on the server's file; `readError` is the exception a
   * read of an existing file raises, if any, and `icon` the favicon's bytes.
   */
  method DoGet(path: string, file: SourceFile, readError: Option<string>, icon: string) returns (replies: seq<Reply>)
    modifies file
    ensures replies == GetReplies(path, old(file.content), readError, icon)
    ensures file.content == old(file.content)
  {
    if ContainsSub(path, "favicon.ico") {
      return [Page(200, "image/png", icon)];
    }
    replies := [];
    if path != "/" {
      replies := [ErrorPage(400, "Invalid URL")];
    }
    var content := file.content;
    var got, _, _ := GetBusData(true, false, file, readError, []);
    match got
    case Err(FileNotFound) =>
      replies := replies + [ErrorPage(404, "File not found.")];
    case Err(ReadFailed(name)) =>
      replies := replies + [CaughtPage(name)];
    case Err(BothModes) =>
      replies := replies + [ErrorPage(500, "Exception caught: ValueError")];
    case Ok(data) =>
      replies := replies + [Page(200, "text/plain", if data.Content? then data.bytes else [])];
  }

  /**
   * As written, a GET of a path other than `/` that is not the icon answers
   * twice: the 400 error and then the file, here with a file present.
   */
  lemma GetAnswersTwice(content: string, icon: string)
    ensures GetReplies("/x", Some(content), None, icon)
            == [ErrorPage(400, "Invalid URL"), Page(200, "text/plain", content)]
  {
    assert !ContainsSub("/x", "favicon.ico");
  }

  /**
   * The first reply as written is always the whole intended reply, which is
   * what a client that reads one response sees; only the trailing second
   * reply after a 400 differs.
   */
  lemma GetFirstReplyIntended(path: string, content: Option<string>, readError: Option<string>, icon: string)
    ensures GetReplies(path, content, readError, icon)[0] == GetRepliesIntended(path, content, readError, icon)[0]
    ensures |GetReplies(path, content, readError, icon)| == 2 <==> !ContainsSub(path, "favicon.ico") && path != "/"
  {
  }

  /** `GET /favicon.ico` is answered with the PNG icon. */
  lemma GetFavicon(content: Option<string>, readError: Option<string>, icon: string)
    ensures GetRepliesIntended("/favicon.ico", content, readError, icon) == [Page(200, "image/png", icon)]
  {
    assert OccursAt("/favicon.ico", "favicon.ico", 1);
  }

  // ---------------------------------------------------------------------------
  // do_DELETE

  /** The token checks: present, decodable, and decoding to today's `(year, month, day)`. */
  predicate Authorised(post: map<string, string>, decode: string -> Option<Date>, today: Date)
  {
    "token" in post && decode(post["token"]) == Some(today)
  }

  /**
   * The reply of `do_DELETE` for the parsed body, given whether the file still
   * exists when the deletion runs. `decode` is decryption followed by
   * evaluation of the token; it gives `None` where decryption raises
   * `InvalidToken` or evaluation raises `NameError`, the two errors the
   * handler turns into a 403.
   */
  function DeleteReply(post: map<string, string>, decode: string -> Option<Date>, today: Date, present: bool): Reply
  {
    if "token" !in post then ErrorPage(403, "Missing token")
    else if decode(post["token"]) != Some(today) then ErrorPage(403, "Invalid token")
    else if present then Page(200, "text/html", "Result: True")
    else Page(500, "text/html", "Result: False")
  }

  /**
   * `MyServer.do_DELETE()`. The request path plays no part; `seconds` are the
   * clock readings the deletion waits on.
   */
  method DoDelete(body: string, decode: string -> Option<Date>, today: Date, file: SourceFile, seconds: seq<int>)
    returns (reply: Reply)
    modifies file
    requires SecondReadings(seconds) && ReachesWindow(seconds)
    ensures reply == DeleteReply(PostData(body), decode, today, old(file.content).Some?)
    ensures file.content == if Authorised(PostData(body), decode, today) then None else old(file.content)
  {
    var post := ParsePostData(body);
    if "token" !in post {
      return ErrorPage(403, "Missing token");
    }
    var data := decode(post["token"]);
    if data.None? {
      return ErrorPage(403, "Invalid token");
    }
    if data.value != today {
      return ErrorPage(403, "Invalid token");
    }
    var result, _, _ := GetBusData(false, true, file, None, seconds);
    if result == Ok(Removed(true)) {
      reply := Page(200, "text/html", "Result: True");
    } else {
      reply := Page(500, "text/html", "Result: False");
    }
  }

  /**
   * The status of a delete request: 403 exactly when the token is missing or
   * not today's, otherwise 200 when the file was there and 500 when it was
   * already gone.
   */
  lemma DeleteStatus(post: map<string, string>, decode: string -> Option<Date>, today: Date, present: bool)
    ensures DeleteReply(post, decode, today, present).code == 403 <==> !Authorised(post, decode, today)
    ensures DeleteReply(post, decode, today, present).code == 200 <==> Authorised(post, decode, today) && present
    ensures DeleteReply(post, decode, today, present).code == 500 <==> Authorised(post, decode, today) && !present
  {
  }

  /** A body without a token, such as the empty body, is refused, whatever the path. */
  lemma DeleteWithoutToken(decode: string -> Option<Date>, today: Date, present: bool)
    ensures DeleteReply(PostData(""), decode, today, present) == ErrorPage(403, "Missing token")
  {
    assert Split("", '&') == [""];
    assert Split("", '=') == [""];
    assert [""][1..] == [];
  }

  /**
   * Two deletes with today's token: the first removes the file and reports
   * `Result: True`, the second finds it gone and reports `Result: False`.
   */
  method DeleteTwice(t: string, decode: string -> Option<Date>, today: Date, file: SourceFile, seconds: seq<int>)
    returns (first: Reply, second: Reply)
    modifies file
    requires forall i :: 0 <= i < |t| ==> t[i] < '\U{80}'
    requires decode(PlusForSpace(t)) == Some(today) && file.content.Some?
    requires SecondReadings(seconds) && ReachesWindow(seconds)
    ensures first == Page(200, "text/html", "Result: True")
    ensures second == Page(500, "text/html", "Result: False")
    ensures file.content == None
  {
    TokenBody(t);
    var body := "token" + "=" + Quote(t);
    first := DoDelete(body, decode, today, file, seconds);
    second := DoDelete(body, decode, today, file, seconds);
  }
}
