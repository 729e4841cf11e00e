/** particles/api/auth.py: which client a forwarded request came from. */
module ForwardedClient {
  import opened Options
  import opened Strings

  /** Python's `ipaddress` module and character classes, as the resolver reads them. */
  datatype Addresses = Addresses(
    isIp: string -> bool,
    within: (string, seq<string>) -> bool,
    isDigit: char -> bool,
    isSpace: char -> bool)

  const UNREADABLE_HOP := "unreadable-forwarded-hop"

  // ---- one hop ------------------------------------------------------------------

  function Count(s: string, c: char): nat {
    if s == "" then 0 else (if s[0] == c then 1 else 0) + Count(s[1..], c)
  }

  /** `s.partition(c)` as the index of the first `c`, or `|s|` when there is none. */
  function IndexOf(s: string, c: char): (i: nat)
    ensures i <= |s| && Free(s[..i], c)
    ensures i < |s| ==> s[i] == c
  {
    if s == "" || s[0] == c then 0
    else
      var i := 1 + IndexOf(s[1..], c);
      assert forall k :: 0 < k < i ==> s[k] == s[1..][k - 1];
      i
  }

  /** `s.isdigit()`: not empty and every character a digit. */
  predicate Digits(s: string, env: Addresses) {
    s != "" && forall i :: 0 <= i < |s| ==> env.isDigit(s[i])
  }

  /** How one hop is read: in brackets, with a port after it, or bare. */
  function HopAddress(hop: string, env: Addresses): Option<string> {
    if hop != "" && hop[0] == '[' then
      var close := IndexOf(hop[1..], ']') + 1;
      if close == |hop| then None
      else
        var rest := hop[close + 1..];
        if rest != "" && !(rest[0] == ':' && Digits(rest[1..], env)) then None
        else Readable(hop[1..close], env)
    else if Count(hop, ':') == 1 then
      var colon := IndexOf(hop, ':');
      if colon < |hop| && !Digits(hop[colon + 1..], env) then None else Readable(hop[..colon], env)
    else
      Readable(hop, env)
  }

  function Readable(candidate: string, env: Addresses): Option<string> {
    if env.isIp(candidate) then Some(candidate) else None
  }

  /** The four spellings of an address a proxy may write. */
  ghost predicate Spells(hop: string, address: string, env: Addresses) {
    var bracketed := hop != "" && hop[0] == '[';
    || (!bracketed && hop == address && Count(hop, ':') != 1)
    || (!bracketed && exists port ::
          Free(address, ':') && Free(port, ':') && Digits(port, env) && hop == address + ":" + port)
    || (Free(address, ']') && hop == "[" + address + "]")
    || (Free(address, ']') && exists port :: Digits(port, env) && hop == "[" + address + "]:" + port)
  }

  lemma {:induction false} CountOfFree(s: string, c: char)
    ensures Count(s, c) == 0 <==> Free(s, c)
  {
    if s != "" {
      CountOfFree(s[1..], c);
      if Count(s, c) == 0 {
        forall i | 0 <= i < |s| ensures s[i] != c { if i > 0 { assert s[i] == s[1..][i - 1]; } }
      }
    }
  }

  lemma {:induction false} CountOfConcat(a: string, b: string, c: char)
    ensures Count(a + b, c) == Count(a, c) + Count(b, c)
  {
    if a == "" { assert a + b == b; }
    else { assert (a + b)[1..] == a[1..] + b; CountOfConcat(a[1..], b, c); }
  }

  lemma CountAround(a: string, c: char, b: string)
    ensures Count(a + [c] + b, c) == Count(a, c) + 1 + Count(b, c)
  {
    CountOfConcat(a + [c], b, c);
    CountOfConcat(a, [c], c);
    assert [c][1..] == "";
  }

  lemma {:induction false} IndexAfterFree(a: string, c: char, b: string)
    requires Free(a, c)
    ensures IndexOf(a + [c] + b, c) == |a|
  {
    if a == "" {
      assert a + [c] + b == [c] + b;
    } else {
      assert (a + [c] + b)[1..] == a[1..] + [c] + b;
      IndexAfterFree(a[1..], c, b);
    }
  }

  /** A hop is read as an address exactly when it is one of the four spellings of it. */
  lemma HopAddressExact(hop: string, address: string, env: Addresses)
    ensures HopAddress(hop, env) == Some(address) <==> env.isIp(address) && Spells(hop, address, env)
  {
    if hop != "" && hop[0] == '[' {
      BracketedHopExact(hop, address, env);
    } else if Count(hop, ':') == 1 {
      PortedHopExact(hop, address, env);
    } else {
      forall port | Free(address, ':') && Free(port, ':') ensures hop != address + ":" + port {
        CountAround(address, ':', port);
        CountOfFree(address, ':');
        CountOfFree(port, ':');
      }
      assert Free(address, ']') ==> ("[" + address + "]")[0] == '[';
      assert forall port: string :: ("[" + address + "]:" + port)[0] == '[';
    }
  }

  lemma BracketedHopExact(hop: string, address: string, env: Addresses)
    requires hop != "" && hop[0] == '['
    ensures HopAddress(hop, env) == Some(address) <==> env.isIp(address) && Spells(hop, address, env)
  {
    if HopAddress(hop, env) == Some(address) {
      BracketedHopSpells(hop, address, env);
    }
    if env.isIp(address) && Spells(hop, address, env) {
      BracketedSpelling(hop, address, env);
    }
  }

  lemma BracketedSpelling(hop: string, address: string, env: Addresses)
    requires hop != "" && hop[0] == '[' && env.isIp(address) && Spells(hop, address, env)
    ensures HopAddress(hop, env) == Some(address)
  {
    if hop == "[" + address + "]" {
      BracketedSpellingReads(address, "", env);
      assert hop == "[" + address + "]" + "";
    } else {
      var port :| Digits(port, env) && hop == "[" + address + "]:" + port;
      assert (":" + port)[1..] == port;
      BracketedSpellingReads(address, ":" + port, env);
      assert hop == "[" + address + "]" + (":" + port);
    }
  }

  lemma BracketedHopSpells(hop: string, address: string, env: Addresses)
    requires hop != "" && hop[0] == '[' && HopAddress(hop, env) == Some(address)
    ensures env.isIp(address) && Spells(hop, address, env)
  {
    var close := IndexOf(hop[1..], ']') + 1;
    var rest := hop[close + 1..];
    assert hop[1..][..close - 1] == hop[1..close] == address;
    assert hop == "[" + address + "]" + rest;
    if rest != "" {
      assert hop == "[" + address + "]:" + rest[1..];
    }
  }

  lemma BracketedSpellingReads(address: string, rest: string, env: Addresses)
    requires Free(address, ']') && env.isIp(address)
    requires rest == "" || (rest[0] == ':' && Digits(rest[1..], env))
    ensures HopAddress("[" + address + "]" + rest, env) == Some(address)
  {
    var hop := "[" + address + "]" + rest;
    assert hop[1..] == address + "]" + rest;
    IndexAfterFree(address, ']', rest);
    assert hop[1..|address| + 1] == address && hop[|address| + 2..] == rest;
  }

  lemma PortedHopExact(hop: string, address: string, env: Addresses)
    requires !(hop != "" && hop[0] == '[') && Count(hop, ':') == 1
    ensures HopAddress(hop, env) == Some(address) <==> env.isIp(address) && Spells(hop, address, env)
  {
    var colon := IndexOf(hop, ':');
    CountOfFree(hop, ':');
    assert colon < |hop|;
    var host, port := hop[..colon], hop[colon + 1..];
    assert hop == host + ":" + port;
    CountAround(host, ':', port);
    CountOfFree(port, ':');
    CountOfFree(host, ':');
    forall p | Free(address, ':') && Free(p, ':') && Digits(p, env) && hop == address + ":" + p
      ensures env.isIp(address) ==> HopAddress(hop, env) == Some(address)
    {
      IndexAfterFree(address, ':', p);
      assert hop[..colon] == address && hop[colon + 1..] == p;
    }
  }

  // ---- the walk -----------------------------------------------------------------

  function Keep(parts: seq<string>, env: Addresses): seq<string> {
    if parts == [] then []
    else
      var hop := Strip(parts[0], env.isSpace);
      (if hop == "" then [] else [hop]) + Keep(parts[1..], env)
  }

  /** The stripped, non-empty comma-separated hops of one field value. */
  function HopsOf(text: string, env: Addresses): seq<string> {
    Keep(Split(text, ','), env)
  }

  /** The hops of every field line, each line read on its own and the lists concatenated. */
  function HopsOfLines(lines: seq<string>, env: Addresses): seq<string> {
    if lines == [] then [] else HopsOf(lines[0], env) + HopsOfLines(lines[1..], env)
  }

  /** A hop that ends the walk: one that names no address, or an untrusted one. */
  predicate Deciding(hop: string, trusted: seq<string>, env: Addresses) {
    var address := HopAddress(hop, env);
    address.None? || !env.within(address.value, trusted)
  }

  /** The client a deciding hop stands for. */
  function Named(hop: string, env: Addresses): string {
    var address := HopAddress(hop, env);
    if address.None? then UNREADABLE_HOP else address.value
  }

  /** The right-to-left walk: the nearest deciding hop, else the peer. */
  function Walk(hops: seq<string>, peer: string, trusted: seq<string>, env: Addresses): string {
    if hops == [] then peer
    else
      var hop := hops[|hops| - 1];
      if Deciding(hop, trusted, env) then Named(hop, env) else Walk(hops[..|hops| - 1], peer, trusted, env)
  }

  /** The originating client's address; `lines` are the request's `X-Forwarded-For` field lines. */
  function RealClientHost(peer: Option<string>, trusted: seq<string>, lines: seq<string>, env: Addresses): Option<string> {
    if peer.None? then None
    else if trusted == [] || !env.within(peer.value, trusted) then peer
    else Some(Walk(HopsOf(Join(lines, ','), env), peer.value, trusted, env))
  }

  lemma {:induction false} KeepOfConcat(a: seq<string>, b: seq<string>, env: Addresses)
    ensures Keep(a + b, env) == Keep(a, env) + Keep(b, env)
  {
    if a == [] { assert a + b == b; }
    else { assert (a + b)[1..] == a[1..] + b; KeepOfConcat(a[1..], b, env); }
  }

  lemma HopsOfCombined(a: string, b: string, env: Addresses)
    ensures HopsOf(a + "," + b, env) == HopsOf(a, env) + HopsOf(b, env)
  {
    SplitOfConcat(a, b, ',');
    KeepOfConcat(Split(a, ','), Split(b, ','), env);
  }

  /** Combining the field lines with commas (RFC 9110, section 5.3) and splitting
      reads the same hops as reading each line on its own. */
  lemma {:induction false} CombinedLinesReadAsLines(lines: seq<string>, env: Addresses)
    ensures HopsOf(Join(lines, ','), env) == HopsOfLines(lines, env)
  {
    if |lines| == 0 {
      assert Keep([""], env) == [] by { assert Strip("", env.isSpace) == "" && [""][1..] == []; }
    } else if |lines| > 1 {
      CombinedLinesReadAsLines(lines[1..], env);
      HopsOfCombined(lines[0], Join(lines[1..], ','), env);
    } else {
      assert lines[1..] == [];
    }
  }

  lemma {:induction false} LinesOfConcat(a: seq<string>, b: seq<string>, env: Addresses)
    ensures HopsOfLines(a + b, env) == HopsOfLines(a, env) + HopsOfLines(b, env)
  {
    if a == [] { assert a + b == b; }
    else { assert (a + b)[1..] == a[1..] + b; LinesOfConcat(a[1..], b, env); }
  }

  /** No hop from `from` on ends the walk. */
  ghost predicate AllTrusted(hops: seq<string>, from: nat, trusted: seq<string>, env: Addresses) {
    forall i :: from <= i < |hops| ==> !Deciding(hops[i], trusted, env)
  }

  lemma {:induction false} WalkSkips(hops: seq<string>, k: nat, peer: string, trusted: seq<string>, env: Addresses)
    requires k <= |hops| && AllTrusted(hops, k, trusted, env)
    ensures Walk(hops, peer, trusted, env) == Walk(hops[..k], peer, trusted, env)
  {
    var n := |hops|;
    if k == n {
      assert hops[..k] == hops;
    } else {
      assert forall i :: 0 <= i < n - 1 ==> hops[..n - 1][i] == hops[i];
      WalkSkips(hops[..n - 1], k, peer, trusted, env);
      assert hops[..n - 1][..k] == hops[..k];
    }
  }

  /** The walk's answer is the rightmost deciding hop's, and the peer's when every hop is trusted. */
  lemma WalkIsRightmostDeciding(hops: seq<string>, peer: string, trusted: seq<string>, env: Addresses)
    ensures AllTrusted(hops, 0, trusted, env) ==> Walk(hops, peer, trusted, env) == peer
    ensures forall k: nat :: k < |hops| && Deciding(hops[k], trusted, env) && AllTrusted(hops, k + 1, trusted, env)
              ==> Walk(hops, peer, trusted, env) == Named(hops[k], env)
  {
    if AllTrusted(hops, 0, trusted, env) { WalkSkips(hops, 0, peer, trusted, env); }
    forall k: nat | k < |hops| && Deciding(hops[k], trusted, env) && AllTrusted(hops, k + 1, trusted, env)
      ensures Walk(hops, peer, trusted, env) == Named(hops[k], env)
    {
      WalkSkips(hops, k + 1, peer, trusted, env);
      assert hops[..k + 1][|hops[..k + 1]| - 1] == hops[k];
    }
  }

  /** Whatever is put before a list holding a deciding hop, the walk answers the same. */
  lemma {:induction false} WalkIgnoresPrefix(before: seq<string>, hops: seq<string>, peer: string, trusted: seq<string>, env: Addresses)
    requires exists k :: 0 <= k < |hops| && Deciding(hops[k], trusted, env)
    ensures Walk(before + hops, peer, trusted, env) == Walk(hops, peer, trusted, env)
  {
    var n := |hops| - 1;
    assert (before + hops)[|before + hops| - 1] == hops[n];
    if !Deciding(hops[n], trusted, env) {
      assert (before + hops)[..|before + hops| - 1] == before + hops[..n];
      var k :| 0 <= k < |hops| && Deciding(hops[k], trusted, env);
      assert hops[..n][k] == hops[k];
      WalkIgnoresPrefix(before, hops[..n], peer, trusted, env);
    }
  }

  ghost predicate Decides(lines: seq<string>, trusted: seq<string>, env: Addresses) {
    exists k :: 0 <= k < |HopsOfLines(lines, env)| && Deciding(HopsOfLines(lines, env)[k], trusted, env)
  }

  lemma SameAnswerAfter(peer: string, trusted: seq<string>, lines: seq<string>, before: seq<string>,
                        own: seq<string>, env: Addresses)
    requires Decides(own, trusted, env)
    requires HopsOfLines(lines, env) == before + HopsOfLines(own, env)
    ensures RealClientHost(Some(peer), trusted, lines, env) == RealClientHost(Some(peer), trusted, own, env)
  {
    CombinedLinesReadAsLines(lines, env);
    CombinedLinesReadAsLines(own, env);
    WalkIgnoresPrefix(before, HopsOfLines(own, env), peer, trusted, env);
  }

  /** A client's lines, then `text` of the client's on the front of the first line of `own`. */
  function Extended(client: seq<string>, text: string, own: seq<string>): seq<string>
    requires own != []
  {
    client + ([text + "," + own[0]] + own[1..])
  }

  lemma HopsOfExtended(client: seq<string>, text: string, own: seq<string>, env: Addresses)
    requires own != []
    ensures HopsOfLines(Extended(client, text, own), env)
         == (HopsOfLines(client, env) + HopsOf(text, env)) + HopsOfLines(own, env)
  {
    var tail := [text + "," + own[0]] + own[1..];
    LinesOfConcat(client, tail, env);
    HopsOfCombined(text, own[0], env);
    assert tail[0] == text + "," + own[0] && tail[1..] == own[1..];
  }

  /** Behind a trusted peer that wrote `own` after whatever the client sent, in lines of
      its own or on the end of the client's last line, no text of the client's choosing
      changes who the client is. */
  lemma ClientCannotChooseItself(peer: string, trusted: seq<string>, client: seq<string>, text: string,
                                 own: seq<string>, env: Addresses)
    requires own != [] && Decides(own, trusted, env)
    ensures RealClientHost(Some(peer), trusted, client + own, env) == RealClientHost(Some(peer), trusted, own, env)
    ensures RealClientHost(Some(peer), trusted, Extended(client, text, own), env)
         == RealClientHost(Some(peer), trusted, own, env)
  {
    LinesOfConcat(client, own, env);
    SameAnswerAfter(peer, trusted, client + own, HopsOfLines(client, env), own, env);
    HopsOfExtended(client, text, own, env);
    SameAnswerAfter(peer, trusted, Extended(client, text, own), HopsOfLines(client, env) + HopsOf(text, env), own, env);
  }

  // ---- what is answered -----------------------------------------------------------

  /** How one comma-free piece of a field is read: stripped, and skipped when blank. With
      `HopsOfCombined` this settles the hops of every field. */
  lemma HopsOfPiece(pre: string, hop: string, post: string, env: Addresses)
    requires AllSpace(pre, env.isSpace) && AllSpace(post, env.isSpace) && Trimmed(hop, env.isSpace) && Free(pre + hop + post, ',')
    ensures HopsOf(pre + hop + post, env) == if hop == "" then [] else [hop]
  {
    var piece := pre + hop + post;
    StripExact(pre, hop, post, env.isSpace);
    SplitOfFree(piece, ',');
    assert Split(piece, ',')[1..] == [] && Keep([], env) == [];
    assert Keep([piece], env) == (if hop == "" then [] else [hop]) + Keep([piece][1..], env);
  }

  /** The hop names an address inside the trusted networks. */
  ghost predicate TrustedHop(hop: string, trusted: seq<string>, env: Addresses) {
    exists address :: HopAddress(hop, env) == Some(address) && env.within(address, trusted)
  }

  /** Hop `k` is the nearest that is not a trusted one. */
  ghost predicate Nearest(hops: seq<string>, k: nat, trusted: seq<string>, env: Addresses) {
    && k < |hops| && !TrustedHop(hops[k], trusted, env)
    && forall i :: k < i < |hops| ==> TrustedHop(hops[i], trusted, env)
  }

  /** Who the client is: nobody without a peer; the peer, whatever the request says, unless the peer
      is a trusted proxy; and behind one, the nearest hop that is not trusted (one fixed name if it
      cannot be read), or the peer if every hop is. */
  lemma RealClientHostExact(peer: Option<string>, trusted: seq<string>, lines: seq<string>, env: Addresses)
    ensures peer.None? ==> RealClientHost(peer, trusted, lines, env) == None
    ensures peer.Some? && (trusted == [] || !env.within(peer.value, trusted)) ==> RealClientHost(peer, trusted, lines, env) == peer
    ensures peer.Some? && (forall i :: 0 <= i < |HopsOfLines(lines, env)| ==> TrustedHop(HopsOfLines(lines, env)[i], trusted, env))
            ==> RealClientHost(peer, trusted, lines, env) == peer
    ensures peer.Some? && trusted != [] && env.within(peer.value, trusted) ==>
      forall k: nat :: Nearest(HopsOfLines(lines, env), k, trusted, env) ==>
        RealClientHost(peer, trusted, lines, env) ==
          match HopAddress(HopsOfLines(lines, env)[k], env)
          case None => Some("unreadable-forwarded-hop")
          case Some(address) => Some(address)
  {
    if peer.Some? {
      var hops := HopsOfLines(lines, env);
      CombinedLinesReadAsLines(lines, env);
      WalkIsRightmostDeciding(hops, peer.value, trusted, env);
      assert forall hop :: Deciding(hop, trusted, env) <==> !TrustedHop(hop, trusted, env);
      forall k: nat | Nearest(hops, k, trusted, env) ensures Walk(hops, peer.value, trusted, env) == Named(hops[k], env) {
        assert AllTrusted(hops, k + 1, trusted, env);
      }
    }
  }
}
