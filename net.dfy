/** `net.JoinHostPort`, and the splitting that undoes it. */
module Net {
  import opened Base

  /** `net.JoinHostPort`: `host:port`, with the host in brackets when it
      contains a colon (an IPv6 literal). Splitting the result at its last
      colon gives back host and port, for every colon-free port and every
      host that is not bracketed without holding a colon. */
  function JoinHostPort(host: string, port: string): (r: string)
    ensures ':' !in port && (':' !in host ==> !Bracketed(host)) ==> SplitHostPort(r) == Some((host, port))
    ensures ':' in host ==> |r| == |host| + 3 + |port|
    ensures ':' !in host ==> |r| == |host| + 1 + |port|
  {
    var h := if ':' in host then "[" + host + "]" else host;
    SplitAtLastColon(h, port);
    assert ':' in host ==> Bracketed(h) && h[1..|h| - 1] == host;
    h + ":" + port
  }

  /** The position of the last occurrence of `c` in `s`, if any. */
  function LastIndexOf(s: string, c: char): (r: Option<nat>)
    ensures r.Some? ==> r.value < |s| && s[r.value] == c && c !in s[r.value + 1..]
    ensures r.None? ==> c !in s
    decreases |s|
  {
    if s == [] then None
    else if s[|s| - 1] == c then Some(|s| - 1)
    else LastIndexOf(s[..|s| - 1], c)
  }

  /** Splits `host:port` at its last colon and drops the brackets around the host. */
  function SplitHostPort(hostport: string): Option<(string, string)> {
    match LastIndexOf(hostport, ':')
    case None => None
    case Some(i) =>
      var h := hostport[..i];
      var host := if Bracketed(h) then h[1..|h| - 1] else h;
      Some((host, hostport[i + 1..]))
  }

  /** A host that is enclosed in brackets without holding a colon would lose
      its brackets on the way back; every other host survives. */
  predicate Bracketed(host: string) {
    |host| >= 2 && host[0] == '[' && host[|host| - 1] == ']'
  }

  /** With no colon in `port`, `h:port` splits at the colon after `h`. */
  lemma SplitAtLastColon(h: string, port: string)
    ensures ':' !in port ==> SplitHostPort(h + ":" + port) == Some((if Bracketed(h) then h[1..|h| - 1] else h, port))
  {
    if ':' !in port {
      var s := h + ":" + port;
      assert s[|h|] == ':' && s[|h| + 1..] == port;
      assert s[..|h|] == h;
      LastIndexOfAt(s, ':', |h|);
    }
  }

  /** The last index is the one after which the character no longer occurs. */
  lemma {:induction false} LastIndexOfAt(s: string, c: char, i: nat)
    requires i < |s| && s[i] == c && c !in s[i + 1..]
    ensures LastIndexOf(s, c) == Some(i)
    decreases |s|
  {
    if i < |s| - 1 {
      assert s[|s| - 1] in s[i + 1..];
      assert s[..|s| - 1][i + 1..] == s[i + 1..|s| - 1];
      LastIndexOfAt(s[..|s| - 1], c, i);
    }
  }
}
