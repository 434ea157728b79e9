/** The logic of `GmailClient` once the Gmail API calls are replaced by the
    answers they give: the search query for a list of senders, the header
    lookup with defaults, the choice of a message body in a part tree, and the
    dropping of messages whose fetch failed. */
module GmailClient {
  import opened Wrappers
  import opened JsStrings

  datatype Header = Header(name: string, value: string)

  /** The `parts` field of a message part: absent, or an array of child parts
      (an empty array is still truthy, so it is not the same as absent). */
  datatype Subparts = NoSubparts | Subparts(items: seq<Part>)

  /** A message part of the Gmail API, the image of a MIME entity (a multipart
      one is described in section 5.1 of RFC 2046): its MIME type, its
      headers, its base64 `body.data` ("" when the body carries no data) and
      its child parts. */
  datatype Part = Part(mimeType: string, headers: seq<Header>, data: string, parts: Subparts)

  /** A message as `users.messages.get` with format `full` returns it. */
  datatype Message = Message(payload: Part, snippet: string)

  /** The record `getEmailContent` builds for one message. */
  datatype Email = Email(id: string, subject: string, from: string, date: string, body: string, snippet: string)

  /** `Buffer.from(data, 'base64').toString('utf-8')`, left uninterpreted. */
  type Decoder = string -> string

  /** What `users.messages.list` does for a query: it throws, or it answers
      with the ids of the messages it found (the `messages` field may be
      missing). */
  type Lister = string -> Result<Option<seq<string>>>

  /** What `users.messages.get` does for an id: `None` when it throws. */
  type Getter = string -> Option<Message>

  // -------------------------------------------------------------- the query

  function SenderTerms(senders: seq<string>): seq<string> {
    seq(|senders|, i requires 0 <= i < |senders| => "from:" + senders[i])
  }

  /** `(${senders.map(e => `from:${e}`).join(' OR ')}) after:${afterDate}` */
  function SearchQuery(senders: seq<string>, afterDate: string): string {
    "(" + Join(SenderTerms(senders), " OR ") + ") after:" + afterDate
  }

  /** Where the term of sender `i` starts in the query. */
  function TermOffset(senders: seq<string>, i: nat): nat
    requires i <= |senders|
  {
    1 + JoinOffset(SenderTerms(senders), " OR ", i)
  }

  /** The query is the parenthesised disjunction of one `from:` term per sender,
      in the given order and separated by ` OR `, followed by the date
      restriction. */
  lemma SearchQueryListsSenders(senders: seq<string>, afterDate: string, i: nat)
    requires i < |senders|
    ensures var q := SearchQuery(senders, afterDate);
      && q[0] == '('
      && q[|q| - |") after:" + afterDate|..] == ") after:" + afterDate
      && OccursAt("from:" + senders[i], q, TermOffset(senders, i))
      && (i + 1 < |senders| ==>
            && OccursAt(" OR ", q, TermOffset(senders, i) + |"from:" + senders[i]|)
            && TermOffset(senders, i + 1) == TermOffset(senders, i) + |"from:" + senders[i]| + |" OR "|)
      && (i + 1 == |senders| ==>
            TermOffset(senders, i) + |"from:" + senders[i]| + |") after:" + afterDate| == |q|)
  {
    var terms := SenderTerms(senders);
    var tail := ") after:" + afterDate;
    JoinAt(terms, " OR ", i);
    OccursInConcat(terms[i], "(", Join(terms, " OR "), tail, JoinOffset(terms, " OR ", i));
    if i + 1 < |senders| {
      OccursInConcat(" OR ", "(", Join(terms, " OR "), tail, JoinOffset(terms, " OR ", i) + |terms[i]|);
    } else {
      JoinEnd(terms, " OR ");
    }
    assert SearchQuery(senders, afterDate) == "(" + Join(terms, " OR ") + tail;
  }

  // ------------------------------------------------------------- the headers

  /** `headers.find(h => h.name === name)`: the first header with that exact
      name. */
  function FindHeader(headers: seq<Header>, name: string): (r: Option<Header>)
    ensures r.None? <==> forall i | 0 <= i < |headers| :: headers[i].name != name
    ensures r.Some? ==> exists i | 0 <= i < |headers| ::
      && headers[i] == r.value && r.value.name == name
      && forall j | 0 <= j < i :: headers[j].name != name
  {
    if headers == [] then None
    else if headers[0].name == name then Some(headers[0])
    else
      var r := FindHeader(headers[1..], name);
      assert r.Some? ==> exists i | 1 <= i < |headers| ::
        headers[i] == r.value && forall j | 0 <= j < i :: headers[j].name != name by {
        if r.Some? {
          var k :| 0 <= k < |headers| - 1 && headers[1..][k] == r.value && r.value.name == name
            && forall j | 0 <= j < k :: headers[1..][j].name != name;
          assert forall j | 0 <= j < k + 1 :: headers[j].name != name by {
            forall j | 0 <= j < k + 1 ensures headers[j].name != name {
              if j > 0 { assert headers[j] == headers[1..][j - 1]; }
            }
          }
        }
      }
      r
  }

  /** `headers.find(h => h.name === name)?.value || fallback`: the value of the
      first header with that name, or `fallback` when there is none or its
      value is empty. A later header of the same name is never consulted. */
  function HeaderValue(headers: seq<Header>, name: string, fallback: string): (v: string)
    ensures (forall i | 0 <= i < |headers| :: headers[i].name != name) ==> v == fallback
    ensures forall i | 0 <= i < |headers| && headers[i].name == name
                       && (forall j | 0 <= j < i :: headers[j].name != name) ::
              v == if headers[i].value != "" then headers[i].value else fallback
  {
    match FindHeader(headers, name)
    case Some(h) => if h.value != "" then h.value else fallback
    case None => fallback
  }

  // ------------------------------------------------------------ the body

  /** `extractBody(payload)`: the decoded top-level data when there is some,
      otherwise the scan of the child parts, otherwise "". */
  function BodyOf(payload: Part, decode: Decoder): string
    decreases payload
  {
    if payload.data != "" then decode(payload.data)
    else if payload.parts.Subparts? then ScanParts(payload.parts.items, "", decode)
    else ""
  }

  /** The loop of `extractBody` over `parts`, started with `body` as the body
      found so far: a text/plain part with data ends it with its decoding; a
      text/html part with data is taken while nothing has been found and the
      scan goes on; a part with children is searched recursively, a non-empty
      result ends the scan and an empty one replaces the body found so far. */
  function ScanParts(parts: seq<Part>, body: string, decode: Decoder): string
    decreases parts
  {
    if parts == [] then body
    else
      var part := parts[0];
      if part.mimeType == "text/plain" && part.data != "" then decode(part.data)
      else if part.mimeType == "text/html" && part.data != "" && body == "" then
        ScanParts(parts[1..], decode(part.data), decode)
      else if part.parts.Subparts? then
        var nested := BodyOf(part, decode);
        if nested != "" then nested else ScanParts(parts[1..], nested, decode)
      else ScanParts(parts[1..], body, decode)
  }

  /** `extractBody`, with its local `body` updated by a loop that breaks. */
  method ExtractBody(payload: Part, decode: Decoder) returns (body: string)
    ensures body == BodyOf(payload, decode)
    decreases payload
  {
    body := "";
    if payload.data != "" {
      body := decode(payload.data);
    } else if payload.parts.Subparts? {
      var parts := payload.parts.items;
      var i := 0;
      while i < |parts|
        invariant 0 <= i <= |parts|
        invariant ScanParts(parts[i..], body, decode) == BodyOf(payload, decode)
      {
        var part := parts[i];
        assert parts[i..][0] == part && parts[i..][1..] == parts[i + 1..];
        if part.mimeType == "text/plain" && part.data != "" {
          body := decode(part.data);
          break;
        } else if part.mimeType == "text/html" && part.data != "" && body == "" {
          body := decode(part.data);
        } else if part.parts.Subparts? {
          body := ExtractBody(part, decode);
          if body != "" {
            break;
          }
        }
        i := i + 1;
      }
    }
  }

  /** The top-level data wins over any parts; a payload with neither data nor
      children, or with an empty array of children, has the empty body. */
  lemma BodyOfTopLevel(payload: Part, decode: Decoder)
    ensures payload.data != "" ==> BodyOf(payload, decode) == decode(payload.data)
    ensures payload.data == "" && payload.parts == NoSubparts ==> BodyOf(payload, decode) == ""
    ensures payload.data == "" && payload.parts == Subparts([]) ==> BodyOf(payload, decode) == ""
  {
  }

  predicate IsPlainWithData(p: Part) {
    p.mimeType == "text/plain" && p.data != ""
  }

  predicate IsHtmlWithData(p: Part) {
    p.mimeType == "text/html" && p.data != ""
  }

  /** Leaves that are neither text/plain nor text/html with data leave the
      scan's state as it is. */
  lemma {:induction false} SkippedParts(parts: seq<Part>, body: string, decode: Decoder)
    requires forall p | p in parts :: p.parts.NoSubparts? && !IsPlainWithData(p) && !IsHtmlWithData(p)
    ensures ScanParts(parts, body, decode) == body
    decreases parts
  {
    if parts != [] {
      SkippedParts(parts[1..], body, decode);
    }
  }

  /** The first text/plain part with data after leaves of any other kind wins,
      whatever follows it and whatever HTML came before it. */
  lemma {:induction false} FirstPlainPartWins(pre: seq<Part>, plain: Part, post: seq<Part>, body: string, decode: Decoder)
    requires IsPlainWithData(plain)
    requires forall p | p in pre :: p.parts.NoSubparts? && !IsPlainWithData(p)
    ensures ScanParts(pre + [plain] + post, body, decode) == decode(plain.data)
    decreases pre
  {
    if pre == [] {
      assert ([] + [plain] + post)[0] == plain;
    } else {
      var next := if IsHtmlWithData(pre[0]) && body == "" then decode(pre[0].data) else body;
      assert (pre + [plain] + post)[1..] == pre[1..] + [plain] + post;
      FirstPlainPartWins(pre[1..], plain, post, next, decode);
    }
  }

  /** Without text/plain data and without nested parts, the body is the first
      HTML part with data, provided its decoding is not empty: later HTML
      parts do not replace it. */
  lemma {:induction false} FirstHtmlPartKept(pre: seq<Part>, html: Part, post: seq<Part>, decode: Decoder)
    requires IsHtmlWithData(html) && decode(html.data) != ""
    requires forall p | p in pre :: p.parts.NoSubparts? && !IsPlainWithData(p) && !IsHtmlWithData(p)
    requires forall p | p in post :: p.parts.NoSubparts? && !IsPlainWithData(p)
    ensures ScanParts(pre + [html] + post, "", decode) == decode(html.data)
    decreases pre
  {
    if pre == [] {
      assert ([] + [html] + post)[0] == html && ([] + [html] + post)[1..] == post;
      HtmlIgnoredOnceFound(post, decode(html.data), decode);
    } else {
      assert (pre + [html] + post)[1..] == pre[1..] + [html] + post;
      FirstHtmlPartKept(pre[1..], html, post, decode);
    }
  }

  /** Once a body has been found, leaves other than text/plain with data do not
      change it. */
  lemma {:induction false} HtmlIgnoredOnceFound(parts: seq<Part>, body: string, decode: Decoder)
    requires body != ""
    requires forall p | p in parts :: p.parts.NoSubparts? && !IsPlainWithData(p)
    ensures ScanParts(parts, body, decode) == body
    decreases parts
  {
    if parts != [] {
      HtmlIgnoredOnceFound(parts[1..], body, decode);
    }
  }

  /** A part with children that is not taken as text is searched recursively:
      a non-empty result ends the scan, an empty result replaces the body found
      so far with "" and the scan goes on. */
  lemma NestedPart(nested: Part, post: seq<Part>, body: string, decode: Decoder)
    requires nested.parts.Subparts? && !IsPlainWithData(nested)
    requires !(IsHtmlWithData(nested) && body == "")
    ensures BodyOf(nested, decode) != "" ==>
      ScanParts([nested] + post, body, decode) == BodyOf(nested, decode)
    ensures BodyOf(nested, decode) == "" ==>
      ScanParts([nested] + post, body, decode) == ScanParts(post, "", decode)
  {
    assert ([nested] + post)[0] == nested && ([nested] + post)[1..] == post;
  }

  /** The consequence of that replacement: an HTML body found before a nested
      part whose search comes back empty is lost, and with nothing usable after
      it the message body is "". */
  lemma EmptyNestedPartDiscardsHtml(html: Part, nested: Part, post: seq<Part>, decode: Decoder)
    requires IsHtmlWithData(html) && decode(html.data) != ""
    requires nested.parts.Subparts? && !IsPlainWithData(nested) && BodyOf(nested, decode) == ""
    requires forall p | p in post :: p.parts.NoSubparts? && !IsPlainWithData(p) && !IsHtmlWithData(p)
    ensures ScanParts([html, nested] + post, "", decode) == ""
  {
    assert ([html, nested] + post)[1..] == [nested] + post;
    NestedPart(nested, post, decode(html.data), decode);
    SkippedParts(post, "", decode);
  }

  /** The data fields of a part and of all its descendants. */
  ghost function TreeData(p: Part): set<string>
    decreases p
  {
    (if p.data != "" then {p.data} else {})
    + (if p.parts.Subparts? then ForestData(p.parts.items) else {})
  }

  ghost function ForestData(parts: seq<Part>): set<string>
    decreases parts
  {
    if parts == [] then {} else TreeData(parts[0]) + ForestData(parts[1..])
  }

  /** The body is "" or the decoding of the data of some part of the tree:
      nothing else can come out of the selection. */
  lemma {:induction false} BodyComesFromTree(payload: Part, decode: Decoder)
    ensures var b := BodyOf(payload, decode);
      b == "" || exists d | d in TreeData(payload) :: decode(d) == b
    decreases payload
  {
    if payload.data == "" && payload.parts.Subparts? {
      ScanComesFromForest(payload.parts.items, "", decode);
    }
  }

  lemma {:induction false} ScanComesFromForest(parts: seq<Part>, body: string, decode: Decoder)
    ensures var b := ScanParts(parts, body, decode);
      b == "" || b == body || exists d | d in ForestData(parts) :: decode(d) == b
    decreases parts
  {
    if parts != [] {
      var part := parts[0];
      var b := ScanParts(parts, body, decode);
      assert TreeData(part) <= ForestData(parts);
      if IsPlainWithData(part) {
        assert part.data in TreeData(part);
      } else if IsHtmlWithData(part) && body == "" {
        ScanComesFromForest(parts[1..], decode(part.data), decode);
        assert part.data in TreeData(part);
      } else if part.parts.Subparts? {
        BodyComesFromTree(part, decode);
        ScanComesFromForest(parts[1..], "", decode);
      } else {
        ScanComesFromForest(parts[1..], body, decode);
      }
    }
  }

  // ---------------------------------------------------- one message, many

  /** `getEmailContent(messageId)`, given what the `get` call did: `null` when it
      threw, otherwise the record with the header defaults 'Sem assunto',
      'Desconhecido' and '' and the selected body. */
  function EmailContent(messageId: string, fetched: Option<Message>, decode: Decoder): (r: Option<Email>)
    ensures r.None? <==> fetched.None?
    ensures r.Some? ==> && r.value.id == messageId
                        && r.value.subject != "" && r.value.from != ""
                        && r.value.body == BodyOf(fetched.value.payload, decode)
                        && r.value.snippet == fetched.value.snippet
    ensures r.Some? ==> var hs := fetched.value.payload.headers;
                        && r.value.subject == HeaderValue(hs, "Subject", "Sem assunto")
                        && r.value.from == HeaderValue(hs, "From", "Desconhecido")
                        && r.value.date == HeaderValue(hs, "Date", "")
  {
    match fetched
    case None => None
    case Some(message) =>
      var headers := message.payload.headers;
      Some(Email(
        messageId,
        HeaderValue(headers, "Subject", "Sem assunto"),
        HeaderValue(headers, "From", "Desconhecido"),
        HeaderValue(headers, "Date", ""),
        BodyOf(message.payload, decode),
        message.snippet))
  }

  /** A missing header, or a first one with an empty value, gives the
      default. */
  lemma HeaderDefaults(messageId: string, message: Message, decode: Decoder)
    ensures var e := EmailContent(messageId, Some(message), decode).value;
      var hs := message.payload.headers;
      && (HeaderValue(hs, "Subject", "") == "" ==> e.subject == "Sem assunto")
      && (HeaderValue(hs, "From", "") == "" ==> e.from == "Desconhecido")
      && ((forall i | 0 <= i < |hs| :: hs[i].name != "Date") ==> e.date == "")
  {
  }

  /** `emails.filter(email => email !== null)`. */
  function WithoutNulls(xs: seq<Option<Email>>): (r: seq<Email>)
    ensures |r| <= |xs|
    ensures forall x :: x in r <==> Some(x) in xs
  {
    if xs == [] then []
    else
      var rest := WithoutNulls(xs[1..]);
      assert forall x :: Some(x) in xs <==> Some(x) == xs[0] || Some(x) in xs[1..];
      match xs[0]
      case None => rest
      case Some(x) => [x] + rest
  }

  /** Filtering keeps the relative order: it works piecewise on a
      concatenation. */
  lemma {:induction false} WithoutNullsAppend(a: seq<Option<Email>>, b: seq<Option<Email>>)
    ensures WithoutNulls(a + b) == WithoutNulls(a) + WithoutNulls(b)
  {
    if a != [] {
      assert (a + b)[1..] == a[1..] + b;
      WithoutNullsAppend(a[1..], b);
    } else {
      assert a + b == b;
    }
  }

  /** The records of the listed messages, in listing order, as
      `Promise.all(messages.map(...))` yields them. */
  function FetchAll(ids: seq<string>, get: Getter, decode: Decoder): seq<Option<Email>> {
    MapIds(ids, id => EmailContent(id, get(id), decode))
  }

  /** `ids.map(f)`. */
  function MapIds<T>(ids: seq<string>, f: string -> T): seq<T> {
    seq(|ids|, i requires 0 <= i < |ids| => f(ids[i]))
  }

  lemma MapIdsAppend<T>(a: seq<string>, b: seq<string>, f: string -> T)
    ensures MapIds(a + b, f) == MapIds(a, f) + MapIds(b, f)
  {
    var fa, fb, fab := MapIds(a, f), MapIds(b, f), MapIds(a + b, f);
    forall i | 0 <= i < |a| ensures fab[i] == fa[i] {
      assert (a + b)[i] == a[i];
    }
    forall i | |a| <= i < |fab| ensures fab[i] == fb[i - |a|] {
      assert (a + b)[i] == b[i - |a|];
    }
  }

  /** `getEmailsFromSenders(senders)` with the cut-off date given: the query is
      sent to `list`; its failure is rethrown; no listed message gives []; the
      messages whose `get` failed are dropped and the others kept in listing
      order. */
  function EmailsFromSenders(senders: seq<string>, afterDate: string, list: Lister, get: Getter, decode: Decoder): (r: Result<seq<Email>>)
    ensures list(SearchQuery(senders, afterDate)).Err? ==> r == Err(list(SearchQuery(senders, afterDate)).message)
    ensures list(SearchQuery(senders, afterDate)) == Ok(None) ==> r == Ok([])
    ensures list(SearchQuery(senders, afterDate)).Ok? && list(SearchQuery(senders, afterDate)).value.Some? ==>
      var ids := list(SearchQuery(senders, afterDate)).value.value;
      && r.Ok? && |r.value| <= |ids|
      && (forall e | e in r.value :: e.id in ids && get(e.id).Some?)
      && (forall i | 0 <= i < |ids| && get(ids[i]).Some? :: exists e | e in r.value :: e.id == ids[i])
    ensures list(SearchQuery(senders, afterDate)).Ok? && list(SearchQuery(senders, afterDate)).value.Some? ==>
      r == Ok(WithoutNulls(FetchAll(list(SearchQuery(senders, afterDate)).value.value, get, decode)))
  {
    match list(SearchQuery(senders, afterDate))
    case Err(message) => Err(message)
    case Ok(None) => Ok([])
    case Ok(Some(ids)) =>
      if |ids| == 0 then Ok([])
      else
        var fetched := FetchAll(ids, get, decode);
        assert forall i | 0 <= i < |ids| :: fetched[i].Some? <==> get(ids[i]).Some?;
        assert forall e | Some(e) in fetched :: e.id in ids && get(e.id).Some?;
        assert forall i | 0 <= i < |ids| && get(ids[i]).Some? :: Some(fetched[i].value) in fetched;
        Ok(WithoutNulls(fetched))
  }

  /** The emails of a listing split in two are those of the first part followed
      by those of the second. */
  lemma FetchedEmailsKeepListingOrder(a: seq<string>, b: seq<string>, get: Getter, decode: Decoder)
    ensures WithoutNulls(FetchAll(a + b, get, decode))
         == WithoutNulls(FetchAll(a, get, decode)) + WithoutNulls(FetchAll(b, get, decode))
  {
    var fa, fb := FetchAll(a, get, decode), FetchAll(b, get, decode);
    MapIdsAppend(a, b, id => EmailContent(id, get(id), decode));
    WithoutNullsAppend(fa, fb);
  }

  /** The listed ids whose `get` succeeded, in listing order. */
  function FetchedIds(ids: seq<string>, get: Getter): seq<string>
    decreases |ids|
  {
    if ids == [] then []
    else (if get(ids[0]).Some? then [ids[0]] else []) + FetchedIds(ids[1..], get)
  }

  /** The records are exactly one per successful fetch, in listing order:
      record k is the record built for the k-th id whose `get` succeeded. */
  lemma {:induction false} RecordsFollowFetchedIds(ids: seq<string>, get: Getter, decode: Decoder)
    ensures var r := WithoutNulls(FetchAll(ids, get, decode));
      var fetched := FetchedIds(ids, get);
      && |r| == |fetched|
      && forall k | 0 <= k < |r| ::
           r[k].id == fetched[k] && get(fetched[k]).Some?
           && Some(r[k]) == EmailContent(fetched[k], get(fetched[k]), decode)
    decreases |ids|
  {
    if ids != [] {
      var head, tail := [ids[0]], ids[1..];
      assert head + tail == ids;
      FetchedEmailsKeepListingOrder(head, tail, get, decode);
      RecordsFollowFetchedIds(tail, get, decode);
      var first := FetchAll(head, get, decode);
      assert first == [EmailContent(ids[0], get(ids[0]), decode)];
      assert first[1..] == [];
    }
  }
}
