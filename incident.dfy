/** The part of incident logging that is pure: the file name an identity's
    incidents are appended to. */
module IncidentLog {

  /** `s.replace(a, b)` for single characters: every `a` becomes `b`. */
  function Replace(s: string, a: char, b: char): (r: string)
    ensures |r| == |s|
    ensures forall i :: 0 <= i < |s| ==> r[i] == if s[i] == a then b else s[i]
  {
    if s == [] then [] else [if s[0] == a then b else s[0]] + Replace(s[1..], a, b)
  }

  /** `ip.replace('.', '_').replace(':', '_')`: IPv4 dots and IPv6 colons
      become underscores, every other character is kept in place. */
  function SafeIp(ip: string): (r: string)
    ensures |r| == |ip|
    ensures forall i :: 0 <= i < |ip| ==>
              r[i] == if ip[i] == '.' || ip[i] == ':' then '_' else ip[i]
    ensures '.' !in r && ':' !in r
  {
    Replace(Replace(ip, '.', '_'), ':', '_')
  }

  /** The name of the incident file for `ip`, `<SafeIp(ip)>.log`: its only
      dot is the one that starts the extension. */
  function LogFileName(ip: string): (r: string)
    ensures |r| == |ip| + 4 && r[..|ip|] == SafeIp(ip) && r[|ip|..] == ".log"
    ensures forall i :: 0 <= i < |r| && r[i] == '.' ==> i == |ip|
  {
    SafeIp(ip) + ".log"
  }

  /** Sanitising a name that is already sanitised changes nothing. */
  lemma SafeIpIdempotent(ip: string)
    ensures SafeIp(SafeIp(ip)) == SafeIp(ip)
  {
    var once := SafeIp(ip);
    assert forall i :: 0 <= i < |once| ==> SafeIp(once)[i] == once[i];
  }

  /** Different identities can share one incident file: an IPv4 address
      and the same digits written with colons or underscores. */
  lemma DistinctIdentitiesShareLogFile()
    ensures "1.2" != "1:2" && SafeIp("1.2") == SafeIp("1:2") == "1_2"
    ensures LogFileName("1.2") == LogFileName("1:2") == "1_2.log"
  {
    assert SafeIp("1.2")[1] == '_';
    assert SafeIp("1:2")[1] == '_';
  }
}
