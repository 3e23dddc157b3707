/** The message handler of src/services/botEvents.ts: extract the first link
    of a message, test it against the provider list, and hand it to the
    downloader when it matches.

    The provider list (read from providers.json at load time) is a parameter.
    The call `videoRequest(url, channelId)` is an effect: the handler threads
    the sequence of requests issued so far and appends the one it makes. */
module BotEvents {
  import opened Wrappers
  import Text
  import UrlMatch

  /** `p` occurs in `s` at `k` or later. */
  function IncludesFrom(s: string, p: string, k: nat): (r: bool)
    requires k <= |s|
    ensures r <==> exists m: nat :: k <= m && Text.OccursAt(s, p, m)
    decreases |s| - k
  {
    if Text.OccursAt(s, p, k) then true
    else if k + |p| >= |s| then false
    else IncludesFrom(s, p, k + 1)
  }

  /** `s.includes(p)`: a case-sensitive substring test; the empty string is
      included in every string. */
  function Includes(s: string, p: string): (r: bool)
    ensures r <==> exists m: nat :: Text.OccursAt(s, p, m)
  {
    IncludesFrom(s, p, 0)
  }

  /** `containsProviderLink(link)`: `providers.some(p => link.includes(p))`. */
  function ContainsProviderLink(providers: seq<string>, link: string): (r: bool)
    ensures r <==> exists i :: 0 <= i < |providers| && Includes(link, providers[i])
    decreases |providers|
  {
    if providers == [] then false
    else Includes(link, providers[0]) || ContainsProviderLink(providers[1..], link)
  }

  /** The order of the provider list, and repetitions in it, do not change the answer. */
  lemma ContainsProviderLinkOrderFree(ps: seq<string>, qs: seq<string>, link: string)
    requires forall p :: p in ps <==> p in qs
    ensures ContainsProviderLink(ps, link) == ContainsProviderLink(qs, link)
  {
    if ContainsProviderLink(ps, link) {
      var i :| 0 <= i < |ps| && Includes(link, ps[i]);
      assert ps[i] in qs;
    }
    if ContainsProviderLink(qs, link) {
      var i :| 0 <= i < |qs| && Includes(link, qs[i]);
      assert qs[i] in ps;
    }
  }

  /** An empty list supports nothing; a list holding the empty string supports every link. */
  lemma ContainsProviderLinkEdges(providers: seq<string>, link: string)
    ensures !ContainsProviderLink([], link)
    ensures "" in providers ==> ContainsProviderLink(providers, link)
  {
    if "" in providers {
      var i :| 0 <= i < |providers| && providers[i] == "";
      assert Text.OccursAt(link, "", 0);
    }
  }

  /** The fields of a chat message the handler sees. `fromBot` records
      whether the author is a bot account; the handler never reads it. */
  datatype Message = Message(content: string, channelId: string, fromBot: bool)

  /** One call `videoRequest(url, channelId)`. */
  datatype VideoRequest = VideoRequest(url: string, channelId: string)

  /** `handleMessageCreate(message)`, given the requests `sent` before it and
      returning the requests after it. */
  function HandleMessageCreate(providers: seq<string>, message: Message, sent: seq<VideoRequest>): (sent': seq<VideoRequest>)
    ensures |sent| <= |sent'| <= |sent| + 1 && sent'[..|sent|] == sent
    ensures |sent'| == |sent| + 1 <==>
      UrlMatch.IsLink(message.content).Some? && ContainsProviderLink(providers, UrlMatch.IsLink(message.content).value)
    ensures |sent'| == |sent| + 1 ==>
      sent'[|sent|] == VideoRequest(UrlMatch.IsLink(message.content).value, message.channelId)
  {
    match UrlMatch.IsLink(message.content)
    case None => sent
    case Some(url) =>
      if ContainsProviderLink(providers, url) then sent + [VideoRequest(url, message.channelId)] else sent
  }

  /** What the handler does, stated against the regular expression and the
      substring test rather than their implementations: it sends a request
      exactly when the first match of the expression contains some provider
      entry, and the request carries that match and the message's channel. */
  lemma HandleMessageCreateSpec(providers: seq<string>, message: Message, sent: seq<VideoRequest>)
    ensures var sent' := HandleMessageCreate(providers, message, sent);
      (sent' != sent <==>
        exists i: nat, j: nat :: UrlMatch.FirstMatch(message.content, i, j)
          && exists p, m: nat :: p in providers && Text.OccursAt(message.content[i..j], p, m))
    ensures var sent' := HandleMessageCreate(providers, message, sent);
      forall i: nat, j: nat :: UrlMatch.FirstMatch(message.content, i, j) && sent' != sent ==>
        sent' == sent + [VideoRequest(message.content[i..j], message.channelId)]
  {
    var s := message.content;
    var sent' := HandleMessageCreate(providers, message, sent);
    UrlMatch.IsLinkMatchesRegex(s);
    assert sent' != sent <==> |sent'| == |sent| + 1;
    match UrlMatch.IsLink(s)
    case None =>
    case Some(u) =>
      var i: nat, j: nat :| UrlMatch.FirstMatch(s, i, j) && u == s[i..j];
      forall i': nat, j': nat | UrlMatch.FirstMatch(s, i', j') ensures i' == i && j' == j {
        UrlMatch.FirstMatchUnique(s, i, j, i', j');
      }
      if ContainsProviderLink(providers, u) {
        var k :| 0 <= k < |providers| && Includes(u, providers[k]);
        var m: nat :| Text.OccursAt(u, providers[k], m);
        assert providers[k] in providers;
      }
      if exists p, m: nat :: p in providers && Text.OccursAt(u, p, m) {
        var p, m: nat :| p in providers && Text.OccursAt(u, p, m);
        var k :| 0 <= k < |providers| && providers[k] == p;
        assert Includes(u, providers[k]);
      }
      assert sent' == sent || sent' == sent + [sent'[|sent|]];
  }

  /** Only the first link of a message is classified: when it is not a
      provider link the handler sends nothing, whatever follows it. */
  lemma OnlyFirstLinkClassified(providers: seq<string>, a: string, b: string, channelId: string, fromBot: bool, sent: seq<VideoRequest>)
    requires UrlMatch.IsLink(a).Some? && !ContainsProviderLink(providers, UrlMatch.IsLink(a).value)
    requires |a| > 0 && UrlMatch.IsWhitespace(a[|a| - 1])
    ensures HandleMessageCreate(providers, Message(a + b, channelId, fromBot), sent) == sent
  {
    UrlMatch.LaterLinkIgnored(a, b);
  }

  /** There is no author check: a bot's message is handled like anyone else's. */
  lemma AuthorIgnored(providers: seq<string>, message: Message, sent: seq<VideoRequest>)
    ensures HandleMessageCreate(providers, message.(fromBot := true), sent)
         == HandleMessageCreate(providers, message.(fromBot := false), sent)
  {
  }

  /** A string includes whatever is written in its middle. */
  lemma IncludesMiddle(a: string, p: string, c: string)
    ensures Includes(a + p + c, p)
  {
    assert (a + p + c)[|a|..|a| + |p|] == p;
    assert Text.OccursAt(a + p + c, p, |a|);
  }

  /** A string cannot include a pattern holding a character it lacks. */
  lemma MissingCharNotIncluded(s: string, p: string, c: char)
    requires c in p && c !in s
    ensures !Includes(s, p)
  {
    var k :| 0 <= k < |p| && p[k] == c;
    forall m: nat ensures !Text.OccursAt(s, p, m) {
      if m + |p| <= |s| {
        assert s[m..m + |p|][k] == s[m + k] && s[m + k] in s;
      }
    }
  }

  /** The Instagram/TikTok registry supports an Instagram reel link. */
  lemma ScenarioRegistrySupports(providers: seq<string>, u: string)
    requires providers == ["instagram.com", "tiktok.com"]
    requires u == "https://instagram.com/reel/abc123"
    ensures ContainsProviderLink(providers, u)
  {
    var a, b, c := "https://", "instagram.com", "/reel/abc123";
    assert u == a + b + c by {}
    IncludesMiddle(a, b, c);
    assert Includes(u, providers[0]);
  }

  /** A sentence with an Instagram reel link in the middle, sent in channel 42:
      the link alone is requested, with the message's channel. */
  lemma ScenarioSupported(providers: seq<string>, t: string, u: string, w: string)
    requires providers == ["instagram.com", "tiktok.com"]
    requires t == "check this out " && u == "https://instagram.com/reel/abc123" && w == " nice"
    ensures HandleMessageCreate(providers, Message(t + u + w, "42", false), []) == [VideoRequest(u, "42")]
  {
    UrlMatch.ScenarioInstagram(t, u, w);
    ScenarioRegistrySupports(providers, u);
  }

  /** A message without any link sends nothing. */
  lemma ScenarioNoLink(providers: seq<string>, sent: seq<VideoRequest>)
    ensures HandleMessageCreate(providers, Message("no links here", "42", false), sent) == sent
  {
    NoLinksHere("no links here");
  }

  lemma NoLinksHere(t: string)
    requires t == "no links here"
    ensures UrlMatch.IsLink(t) == None
  {
    UrlMatch.NoLinkWithoutP(t);
  }

  /** A sentence ending in an example.org link, a site not on the list: nothing is sent. */
  lemma ScenarioUnsupported()
    ensures HandleMessageCreate(["instagram.com", "tiktok.com"], Message("look at http://example.org/x", "42", false), []) == []
  {
    var providers := ["instagram.com", "tiktok.com"];
    var u := "http://example.org/x";
    UrlMatch.ScenarioExampleOrg();
    assert 'i' !in u && 'k' !in u by {
      ExampleOrgLetters(u);
    }
    assert 'i' in providers[0] && 'k' in providers[1];
    MissingCharNotIncluded(u, providers[0], 'i');
    MissingCharNotIncluded(u, providers[1], 'k');
  }

  lemma ExampleOrgLetters(u: string)
    requires u == "http://example.org/x"
    ensures 'i' !in u && 'k' !in u
  {
  }
}
