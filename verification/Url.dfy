/** The URL splitter of src/SubversionHds.cc: it counts slashes and files the characters between them. */
module Url {
  import opened Decimal

  datatype SvnUrl = SvnUrl(scheme: string, account: string, host: string, port: nat,
                           owner: string, repository: string, path: string)

  const NO_URL := SvnUrl("", "", "", 0, "", "", "")

  // ---------------------------------------------------------------- splitting at slashes

  /** The position of the first slash, or the length. */
  function Slash(s: string): (i: nat)
    ensures i <= |s| && (i < |s| ==> s[i] == '/')
    ensures forall j :: 0 <= j < i ==> s[j] != '/'
  {
    if s == "" || s[0] == '/' then 0 else 1 + Slash(s[1..])
  }

  function UpToSlash(s: string): string {
    s[..Slash(s)]
  }

  function BehindSlash(s: string): string {
    if Slash(s) < |s| then s[Slash(s) + 1..] else ""
  }

  /** What is left behind the first `k` slashes; empty when there are fewer. */
  function Behind(s: string, k: nat): string
    decreases k
  {
    if k == 0 then s else Behind(BehindSlash(s), k - 1)
  }

  /** The piece behind the first `k` slashes, up to the next one. */
  function Piece(s: string, k: nat): string {
    UpToSlash(Behind(s, k))
  }

  function WithoutColons(s: string): string {
    if s == "" then "" else (if s[0] == ':' then "" else [s[0]]) + WithoutColons(s[1..])
  }

  /** Account and host from the authority: an at-sign exchanges them, a colon clears the host. */
  function Authority(s: string, account: string, host: string): (string, string) {
    if s == "" then (account, host)
    else if s[0] == '@' then Authority(s[1..], host, account)
    else if s[0] == ':' then Authority(s[1..], account, "")
    else Authority(s[1..], account, host + [s[0]])
  }

  /** The port depends on the scheme alone: no text is ever kept for an explicit one. */
  function DefaultPort(scheme: string): nat {
    if scheme == "svn" then 3690 else if scheme == "svn+ssh" then 21 else 3690
  }

  /** What the splitter makes of a URL: the answer and the fields added to those of `u`. */
  function Canonical(url: string, u: SvnUrl): (int, SvnUrl) {
    if url == "" then (1, u)
    else
      var v := u.(path := u.path + "/", scheme := u.scheme + WithoutColons(Piece(url, 0)));
      if Piece(url, 1) != "" then (2, v)
      else
        var (account, host) := Authority(Piece(url, 2), u.account, u.host);
        (0, v.(account := account, host := host,
               owner := u.owner + Piece(url, 3),
               repository := u.repository + Piece(url, 4),
               path := v.path + Behind(url, 5),
               port := DefaultPort(v.scheme)))
  }

  // ---------------------------------------------------------------- the loop

  /** One character that is not one of the first five slashes; none when the splitter gives up. */
  function Filed(c: char, depth: nat, u: SvnUrl): SvnUrl
    requires depth != 1
  {
    match depth
    case 0 => if c != ':' then u.(scheme := u.scheme + [c]) else u
    case 2 =>
      if c == '@' then u.(account := u.host, host := u.account)
      else if c == ':' then u.(host := "")
      else u.(host := u.host + [c])
    case 3 => u.(owner := u.owner + [c])
    case 4 => u.(repository := u.repository + [c])
    case _ => u.(path := u.path + [c])
  }

  /** The loop over the characters, from slash count `depth` on; false when it gives up. */
  function Scan(s: string, depth: nat, u: SvnUrl): (bool, SvnUrl) {
    if s == "" then (true, u)
    else if s[0] == '/' && depth < 5 then Scan(s[1..], depth + 1, u)
    else if depth == 1 then (false, u)
    else Scan(s[1..], depth, Filed(s[0], depth, u))
  }

  /** A whole piece filed under one slash count. */
  function FiledAll(s: string, depth: nat, u: SvnUrl): SvnUrl
    requires depth != 1
  {
    match depth
    case 0 => u.(scheme := u.scheme + WithoutColons(s))
    case 2 => var (a, h) := Authority(s, u.account, u.host); u.(account := a, host := h)
    case 3 => u.(owner := u.owner + s)
    case 4 => u.(repository := u.repository + s)
    case _ => u.(path := u.path + s)
  }

  lemma FiledStep(s: string, depth: nat, u: SvnUrl)
    requires depth != 1 && s != ""
    ensures FiledAll(s, depth, u) == FiledAll(s[1..], depth, Filed(s[0], depth, u))
  {
    assert s == [s[0]] + s[1..];
    if depth == 0 {
      assert u.scheme + (if s[0] == ':' then "" else [s[0]]) + WithoutColons(s[1..]) == u.scheme + WithoutColons(s);
    } else if depth == 3 {
      assert u.owner + [s[0]] + s[1..] == u.owner + s;
    } else if depth == 4 {
      assert u.repository + [s[0]] + s[1..] == u.repository + s;
    } else if depth != 2 {
      assert u.path + [s[0]] + s[1..] == u.path + s;
    }
  }

  /** Up to the next slash the loop files one piece. */
  lemma {:induction false} ScanPiece(s: string, depth: nat, u: SvnUrl)
    requires depth < 5 && depth != 1
    ensures Scan(s, depth, u)
         == if Slash(s) < |s| then Scan(BehindSlash(s), depth + 1, FiledAll(UpToSlash(s), depth, u))
            else (true, FiledAll(s, depth, u))
  {
    if s == "" {
      NothingFiled(depth, u);
    } else if s[0] == '/' {
      NothingFiled(depth, u);
      assert UpToSlash(s) == "";
    } else {
      ScanPiece(s[1..], depth, Filed(s[0], depth, u));
      assert UpToSlash(s)[1..] == UpToSlash(s[1..]);
      FiledStep(UpToSlash(s), depth, u);
      FiledStep(s, depth, u);
    }
  }

  lemma NothingFiled(depth: nat, u: SvnUrl)
    requires depth != 1
    ensures FiledAll("", depth, u) == u
  {
    assert u.scheme + "" == u.scheme && u.owner + "" == u.owner;
    assert u.repository + "" == u.repository && u.path + "" == u.path;
  }

  /** Behind the fifth slash everything belongs to the path. */
  lemma {:induction false} ScanPath(s: string, u: SvnUrl)
    ensures Scan(s, 5, u) == (true, u.(path := u.path + s))
  {
    if s == "" {
      assert u.path + s == u.path;
    } else {
      ScanPath(s[1..], u.(path := u.path + [s[0]]));
      assert u.path + [s[0]] + s[1..] == u.path + s;
    }
  }

  /** From the third slash count on the loop cannot give up. */
  lemma ScanFrom(s: string, depth: nat, u: SvnUrl)
    requires 2 <= depth <= 5
    ensures Scan(s, depth, u) == (true, FiledFrom(s, depth, u))
    decreases 5 - depth
  {
    if depth == 5 {
      ScanPath(s, u);
    } else {
      ScanPiece(s, depth, u);
      var v := FiledAll(UpToSlash(s), depth, u);
      ScanFrom(BehindSlash(s), depth + 1, v);
      if Slash(s) == |s| {
        assert UpToSlash(s) == s && BehindSlash(s) == "";
        NothingFiledFrom(depth + 1, v);
      }
    }
  }

  function FiledFrom(s: string, depth: nat, u: SvnUrl): SvnUrl
    requires 2 <= depth <= 5
    decreases 5 - depth
  {
    if depth == 5 then FiledAll(s, 5, u)
    else FiledFrom(BehindSlash(s), depth + 1, FiledAll(UpToSlash(s), depth, u))
  }

  lemma NothingFiledFrom(depth: nat, u: SvnUrl)
    requires 2 <= depth <= 5
    ensures FiledFrom("", depth, u) == u
    decreases 5 - depth
  {
    NothingFiled(depth, u);
    if depth < 5 {
      NothingFiledFrom(depth + 1, u);
    }
  }

  lemma FiledFromPieces(s: string, u: SvnUrl)
    ensures FiledFrom(s, 2, u)
         == var (a, h) := Authority(Piece(s, 0), u.account, u.host);
            u.(account := a, host := h, owner := u.owner + Piece(s, 1), repository := u.repository + Piece(s, 2),
               path := u.path + Behind(s, 3))
  {
    var s1 := BehindSlash(s);
    var s2 := BehindSlash(s1);
    var s3 := BehindSlash(s2);
    assert Behind(s, 1) == Behind(s1, 0) == s1;
    assert Behind(s, 2) == Behind(s1, 1) == Behind(s2, 0) == s2;
    assert Behind(s, 3) == Behind(s1, 2) == Behind(s2, 1) == Behind(s3, 0) == s3;
  }

  /** The loop splits at the first five slashes. */
  lemma ScanSplits(url: string, u: SvnUrl)
    requires url != ""
    ensures var (ok, v) := Scan(url, 0, u.(path := u.path + "/"));
            Canonical(url, u) == if ok then (0, v.(port := DefaultPort(v.scheme))) else (2, v)
  {
    var w := u.(path := u.path + "/");
    ScanPiece(url, 0, w);
    var v := FiledAll(UpToSlash(url), 0, w);
    var s1 := BehindSlash(url);
    var s2 := BehindSlash(s1);
    PiecesOfTail(url, s1, s2);
    if Slash(url) == |url| {
      assert UpToSlash(url) == url;
      NothingFiledFrom(2, v);
      FiledFromPieces(s2, v);
    } else if s1 == "" {
      NothingFiledFrom(2, v);
      FiledFromPieces(s2, v);
    } else if s1[0] == '/' {
      assert s2 == s1[1..];
      ScanFrom(s2, 2, v);
      FiledFromPieces(s2, v);
    }
  }

  lemma PiecesOfTail(url: string, s1: string, s2: string)
    requires s1 == BehindSlash(url) && s2 == BehindSlash(s1)
    ensures Piece(url, 0) == UpToSlash(url) && Piece(url, 1) == UpToSlash(s1)
    ensures forall k: nat :: Behind(url, k + 2) == Behind(s2, k)
    ensures Piece(url, 2) == Piece(s2, 0) && Piece(url, 3) == Piece(s2, 1) && Piece(url, 4) == Piece(s2, 2)
    ensures Behind(url, 5) == Behind(s2, 3)
  {
    forall k: nat
      ensures Behind(url, k + 2) == Behind(s2, k)
    {
      assert Behind(url, k + 2) == Behind(s1, k + 1);
    }
    assert Behind(url, 1) == Behind(s1, 0);
    assert Behind(url, 2 + 1) == Behind(s2, 1) && Behind(url, 2 + 2) == Behind(s2, 2)
        && Behind(url, 2 + 3) == Behind(s2, 3);
    assert Behind(url, 0 + 2) == Behind(s2, 0);
  }

  class SubversionURL {
    var scheme: string
    var account: string
    var host: string
    var port: nat
    var owner: string
    var repository: string
    var path: string

    ghost function View(): SvnUrl
      reads this
    {
      SvnUrl(scheme, account, host, port, owner, repository, path)
    }

    constructor ()
      ensures View() == NO_URL
    {
      scheme, account, host, port, owner, repository, path := "", "", "", 0, "", "", "";
    }
  }

  lemma PortOf(scheme: string)
    ensures DefaultPort(scheme) == if scheme == "svn" then 3690 else if scheme == "svn+ssh" then 21 else 3690
  {
  }

  lemma CodesMean(url: string, u: SvnUrl)
    ensures Canonical(url, u).0 == 2 <==> url != "" && Piece(url, 1) != ""
    ensures Canonical(url, u).0 == 1 <==> url == ""
    ensures url == "" ==> Canonical(url, u) == (1, u)
  {
    hide Piece, Behind;
  }

  method SubversionUriCanonicalize(url: string, su: SubversionURL) returns (code: int)
    modifies su
    ensures (code, su.View()) == Canonical(url, old(su.View()))
    ensures code == 2 <==> url != "" && Piece(url, 1) != ""
    ensures code == 1 <==> url == ""
  {
    hide Canonical, Piece, Behind, DefaultPort;
    CodesMean(url, su.View());
    if url == "" {
      return 1;
    }
    ScanSplits(url, su.View());
    var depth := 0;
    su.path := su.path + "/";
    ghost var goal := Scan(url, 0, su.View());
    for i := 0 to |url|
      invariant Scan(url[i..], depth, su.View()) == goal
    {
      var c := url[i];
      assert url[i..][0] == c && url[i..][1..] == url[i + 1..];
      if c == '/' && depth < 5 {
        depth := depth + 1;
        continue;
      }
      match depth
      case 0 =>
        if c != ':' {
          su.scheme := su.scheme + [c];
        }
      case 1 =>
        return 2;
      case 2 =>
        if c == '@' {
          su.account, su.host := su.host, su.account;
        } else if c == ':' {
          su.host := "";
        } else {
          su.host := su.host + [c];
        }
      case 3 =>
        su.owner := su.owner + [c];
      case 4 =>
        su.repository := su.repository + [c];
      case _ =>
        su.path := su.path + [c];
    }
    PortOf(su.scheme);
    su.port := if su.scheme == "svn" then 3690 else if su.scheme == "svn+ssh" then 21 else 3690;
    return 0;
  }

  // ---------------------------------------------------------------- printing and reading again

  function Print(u: SvnUrl): string {
    u.scheme + "://" + (if u.account == "" then "" else u.account + "@") + u.host
    + "/" + u.owner + "/" + u.repository + u.path
  }

  predicate Lacks(s: string, c: char) {
    forall i :: 0 <= i < |s| ==> s[i] != c
  }

  lemma SlashOf(a: string, b: string)
    requires Lacks(a, '/')
    ensures UpToSlash(a + "/" + b) == a && BehindSlash(a + "/" + b) == b
  {
    SlashAt(a + "/" + b, |a|);
  }

  lemma {:induction false} SlashAt(s: string, i: nat)
    requires i < |s| && s[i] == '/' && Lacks(s[..i], '/')
    ensures Slash(s) == i
  {
    if i > 0 {
      assert s[0] == s[..i][0];
      assert s[1..][..i - 1] == s[..i][1..];
      SlashAt(s[1..], i - 1);
    }
  }

  lemma {:induction false} ColonsDropped(s: string)
    requires Lacks(s, ':')
    ensures WithoutColons(s + ":") == s
  {
    if s != "" {
      assert (s + ":")[1..] == s[1..] + ":";
      ColonsDropped(s[1..]);
    }
  }

  /** Characters without a meaning of their own are appended to the host. */
  lemma {:induction false} AuthorityPlain(s: string, account: string, host: string)
    requires Lacks(s, '@') && Lacks(s, ':')
    ensures Authority(s, account, host) == (account, host + s)
  {
    if s == "" {
      assert host + s == host;
    } else {
      AuthorityPlain(s[1..], account, host + [s[0]]);
      assert host + [s[0]] + s[1..] == host + s;
    }
  }

  lemma {:induction false} AuthorityAppend(s: string, t: string, account: string, host: string)
    ensures Authority(s + t, account, host)
         == var (a, h) := Authority(s, account, host); Authority(t, a, h)
  {
    if s == "" {
      assert s + t == t;
    } else {
      assert (s + t)[1..] == s[1..] + t;
      if s[0] == '@' {
        AuthorityAppend(s[1..], t, host, account);
      } else if s[0] == ':' {
        AuthorityAppend(s[1..], t, account, "");
      } else {
        AuthorityAppend(s[1..], t, account, host + [s[0]]);
      }
    }
  }

  /** `account@host` is read as that account and that host. */
  lemma AuthorityReads(account: string, host: string)
    requires Lacks(account, '@') && Lacks(account, ':') && Lacks(host, '@') && Lacks(host, ':')
    ensures Authority((if account == "" then "" else account + "@") + host, "", "") == (account, host)
  {
    if account == "" {
      assert "" + host == host;
      AuthorityPlain(host, "", "");
    } else {
      assert (account + "@") + host == account + ("@" + host) && "" + account == account && "" + host == host;
      AuthorityAppend(account, "@" + host, "", "");
      AuthorityPlain(account, "", "");
      assert ("@" + host)[1..] == host;
      AuthorityPlain(host, account, "");
    }
  }

  /** The ports of the schemes; svn's own is also that of every unknown one. */
  function SchemePort(scheme: string): nat {
    if scheme == "svn+ssh" then 21 else 3690
  }

  /** Field values that the splitter can produce. */
  predicate Splittable(u: SvnUrl) {
    && Lacks(u.scheme, '/') && Lacks(u.scheme, ':')
    && Lacks(u.account, '/') && Lacks(u.account, '@') && Lacks(u.account, ':')
    && Lacks(u.host, '/') && Lacks(u.host, '@') && Lacks(u.host, ':')
    && Lacks(u.owner, '/') && Lacks(u.repository, '/')
    && u.path != "" && u.path[0] == '/'
    && u.port == SchemePort(u.scheme)
  }

  /** Field values that printing keeps apart. */
  predicate Separable(u: SvnUrl) {
    && Lacks(u.scheme, '/') && Lacks(u.scheme, ':')
    && Lacks(u.account, '/') && Lacks(u.host, '/') && Lacks(u.owner, '/') && Lacks(u.repository, '/')
    && u.path != "" && u.path[0] == '/'
  }

  /** Reading a printed URL gives its fields back, except that the authority is taken apart anew. */
  lemma ReadParts(u: SvnUrl)
    requires Separable(u)
    ensures var (account, host) := Authority(PrintedAuthority(u), "", "");
            Canonical(Print(u), NO_URL) == (0, u.(account := account, host := host, port := DefaultPort(u.scheme)))
  {
    hide Slash, UpToSlash, BehindSlash, Behind, Piece, Authority, WithoutColons, Print, Lacks;
    var auth, path := PrintedAuthority(u), u.path[1..];
    var t4 := u.repository + "/" + path;
    var t3 := u.owner + "/" + t4;
    var t2 := auth + "/" + t3;
    var t1 := "" + "/" + t2;
    var url := (u.scheme + ":") + "/" + t1;
    PrintRegrouped(u);
    NoSlashes(u);
    SlashOf(u.scheme + ":", t1);
    SlashOf("", t2);
    SlashOf(auth, t3);
    SlashOf(u.owner, t4);
    SlashOf(u.repository, path);
    FivePieces(url, t1, t2, t3, t4, path);
    ColonsDropped(u.scheme);
    assert "" + u.scheme == u.scheme && "" + u.owner == u.owner && "" + u.repository == u.repository;
    assert "" + "/" + path == u.path;
  }

  /** What stands behind the last colon of a text, or all of it. */
  function BehindColons(s: string): (r: string)
    ensures Lacks(r, ':') && |r| <= |s| && s[|s| - |r|..] == r
    ensures |r| < |s| ==> s[|s| - |r| - 1] == ':'
  {
    if s == "" || s[|s| - 1] == ':' then ""
    else
      var front := BehindColons(s[..|s| - 1]);
      assert s == s[..|s| - 1] + [s[|s| - 1]];
      front + [s[|s| - 1]]
  }

  lemma {:induction false} AuthorityColons(s: string, account: string, host: string)
    requires Lacks(s, '@')
    ensures Authority(s, account, host) == (account, if Lacks(s, ':') then host + s else BehindColons(s))
    decreases |s|
  {
    if Lacks(s, ':') {
      AuthorityPlain(s, account, host);
    } else {
      var front, last := s[..|s| - 1], s[|s| - 1..];
      assert s == front + last && last == [s[|s| - 1]];
      AuthorityColons(front, account, host);
      AuthorityAppend(front, last, account, host);
      var h := Authority(front, account, host).1;
      assert last[1..] == "";
      assert Authority(last, account, h) == (account, if last[0] == ':' then "" else h + last);
    }
  }

  /** Any user, password, host and port: of either side of the at-sign only what stands behind its last colon is kept,
      and the port is that of the scheme. */
  lemma AnyAuthority(u: SvnUrl)
    requires Separable(u) && Lacks(u.account, '@') && Lacks(u.host, '@')
    ensures Canonical(Print(u), NO_URL)
         == (0, u.(account := BehindColons(u.account), host := BehindColons(u.host), port := SchemePort(u.scheme)))
  {
    hide Canonical, Authority, Print, BehindColons;
    ReadParts(u);
    AuthorityOf(u.account, u.host);
  }

  lemma AllBehindColons(s: string)
    requires Lacks(s, ':')
    ensures BehindColons(s) == s
  {
    hide BehindColons;
  }

  lemma OneSide(s: string, account: string)
    requires Lacks(s, '@')
    ensures Authority(s, account, "") == (account, BehindColons(s))
  {
    hide Authority, BehindColons;
    AuthorityColons(s, account, "");
    if Lacks(s, ':') {
      AllBehindColons(s);
      assert "" + s == s;
    }
  }

  lemma AtSign(host: string, a: string)
    ensures Authority("@" + host, "", a) == Authority(host, a, "")
  {
    assert ("@" + host)[1..] == host;
  }

  lemma AuthorityOf(account: string, host: string)
    requires Lacks(account, '@') && Lacks(host, '@')
    ensures Authority((if account == "" then "" else account + "@") + host, "", "")
         == (BehindColons(account), BehindColons(host))
  {
    hide Authority, BehindColons, Lacks;
    if account == "" {
      assert "" + host == host;
      OneSide(host, "");
    } else {
      assert (account + "@") + host == account + ("@" + host);
      AuthorityAppend(account, "@" + host, "", "");
      OneSide(account, "");
      AtSign(host, BehindColons(account));
      OneSide(host, BehindColons(account));
    }
  }

  /** Printing what the splitter can produce and reading it again changes nothing. */
  lemma ReadPrinted(u: SvnUrl)
    requires Splittable(u)
    ensures Canonical(Print(u), NO_URL) == (0, u)
  {
    hide Canonical, Authority, Print, Lacks;
    ReadParts(u);
    AuthorityReads(u.account, u.host);
  }

  function PrintedAuthority(u: SvnUrl): string {
    (if u.account == "" then "" else u.account + "@") + u.host
  }

  lemma PrintRegrouped(u: SvnUrl)
    requires u.path != "" && u.path[0] == '/'
    ensures Print(u) == (u.scheme + ":") + "/" + ("" + "/" + (PrintedAuthority(u) + "/" + (u.owner + "/"
                        + (u.repository + "/" + u.path[1..]))))
  {
    assert u.path == "/" + u.path[1..];
  }

  lemma NoSlashes(u: SvnUrl)
    requires Separable(u)
    ensures Lacks(u.scheme + ":", '/') && Lacks("", '/') && Lacks(PrintedAuthority(u), '/')
  {
  }

  lemma FivePieces(url: string, t1: string, t2: string, t3: string, t4: string, path: string)
    requires BehindSlash(url) == t1 && BehindSlash(t1) == t2 && BehindSlash(t2) == t3
    requires BehindSlash(t3) == t4 && BehindSlash(t4) == path
    ensures Piece(url, 0) == UpToSlash(url) && Piece(url, 1) == UpToSlash(t1) && Piece(url, 2) == UpToSlash(t2)
    ensures Piece(url, 3) == UpToSlash(t3) && Piece(url, 4) == UpToSlash(t4) && Behind(url, 5) == path
  {
    PiecesOfTail(url, t1, t2);
    assert Behind(t2, 1) == Behind(t3, 0);
    assert Behind(t2, 2) == Behind(t3, 1) == Behind(t4, 0);
    assert Behind(t2, 3) == Behind(t3, 2) == Behind(t4, 1) == Behind(path, 0);
  }

  lemma {:induction false} AuthorityLacks(s: string, account: string, host: string, c: char)
    requires Lacks(account, c) && Lacks(host, c) && (c == '@' || c == ':' || Lacks(s, c))
    ensures Lacks(Authority(s, account, host).0, c) && Lacks(Authority(s, account, host).1, c)
  {
    if s != "" {
      if s[0] == '@' {
        AuthorityLacks(s[1..], host, account, c);
      } else if s[0] == ':' {
        AuthorityLacks(s[1..], account, "", c);
      } else {
        AuthorityLacks(s[1..], account, host + [s[0]], c);
      }
    }
  }

  lemma {:induction false} WithoutColonsLacks(s: string)
    ensures Lacks(WithoutColons(s), ':')
    ensures Lacks(s, '/') ==> Lacks(WithoutColons(s), '/')
  {
    if s != "" {
      WithoutColonsLacks(s[1..]);
      assert Lacks(s, '/') ==> Lacks(s[1..], '/');
    }
  }

  /** What the splitter accepts it can print and read again, explicit ports and repeated at-signs included. */
  lemma AcceptedIsSplittable(url: string)
    requires Canonical(url, NO_URL).0 == 0
    ensures Splittable(Canonical(url, NO_URL).1)
    ensures Canonical(Print(Canonical(url, NO_URL).1), NO_URL) == Canonical(url, NO_URL)
  {
    hide Slash, Behind, Authority, WithoutColons, Print;
    var u := Canonical(url, NO_URL).1;
    WithoutColonsLacks(Piece(url, 0));
    assert "" + WithoutColons(Piece(url, 0)) == WithoutColons(Piece(url, 0));
    AuthorityLacks(Piece(url, 2), "", "", '/');
    AuthorityLacks(Piece(url, 2), "", "", '@');
    AuthorityLacks(Piece(url, 2), "", "", ':');
    assert "" + Piece(url, 3) == Piece(url, 3) && "" + Piece(url, 4) == Piece(url, 4);
    assert u.path[0] == '/';
    ReadPrinted(u);
  }

  /** A URL with an explicit port is accepted with the port's text as its host, while the port stays that of the
      scheme; it reads like the URL without the port only when the two texts are equal. */
  lemma ExplicitPort(u: SvnUrl, port: string)
    requires Splittable(u) && Lacks(port, '/') && Lacks(port, '@') && Lacks(port, ':')
    ensures var url := Print(u.(host := u.host + ":" + port));
      && Canonical(url, NO_URL) == (0, u.(host := port))
      && (Canonical(url, NO_URL) == Canonical(Print(u), NO_URL) <==> port == u.host)
  {
    hide Canonical, Authority, Print;
    var v := u.(host := u.host + ":" + port);
    ReadParts(v);
    ReadPrinted(u);
    assert PrintedAuthority(v) == PrintedAuthority(u) + (":" + port);
    AuthorityAppend(PrintedAuthority(u), ":" + port, "", "");
    AuthorityReads(u.account, u.host);
    PortReplacesHost(u.account, u.host, port);
  }

  /** An explicit port is read as it is written only when it is the scheme's own port and the host is written with
      the same digits. */
  lemma PortAsWritten(u: SvnUrl, port: string)
    requires Splittable(u) && AllDigits(port)
    ensures var n := Accumulate(port, 0);
      (Canonical(Print(u.(host := u.host + ":" + port)), NO_URL) == (0, u.(port := n)))
        <==> (port == u.host && n == SchemePort(u.scheme))
  {
    hide Canonical, Print, SchemePort;
    DigitsLack(port);
    ExplicitPort(u, port);
  }

  lemma DigitsLack(port: string)
    requires AllDigits(port)
    ensures Lacks(port, '/') && Lacks(port, '@') && Lacks(port, ':')
  {
    assert forall i :: 0 <= i < |port| ==> IsDigit(port[i]);
  }

  lemma PortReplacesHost(account: string, host: string, port: string)
    requires Lacks(port, '@') && Lacks(port, ':')
    ensures Authority(":" + port, account, host) == (account, port)
  {
    assert (":" + port)[1..] == port && "" + port == port;
    AuthorityPlain(port, account, "");
  }
}
