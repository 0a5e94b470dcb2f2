/**
 * The string handling of the webhook: the zone search term and the record name
 * relative to the zone. Strings are sequences of characters; the source compares
 * bytes, which agrees with character comparison for suffix tests on UTF-8 text.
 */
module Names {

  predicate HasSuffix(s: string, suffix: string) {
    |suffix| <= |s| && s[|s| - |suffix|..] == suffix
  }

  /** Go's strings.TrimSuffix: `s` without `suffix` when `s` ends with it, `s` unchanged otherwise. */
  function TrimSuffix(s: string, suffix: string): (r: string)
    ensures HasSuffix(s, suffix) ==> r + suffix == s
    ensures !HasSuffix(s, suffix) ==> r == s
  {
    if HasSuffix(s, suffix) then s[..|s| - |suffix|] else s
  }

  /**
   * The term GetZone searches the provider with: the resolved zone without its
   * trailing dot. The source reads the zone's last byte, so the zone must not be empty.
   */
  function SearchTerm(zone: string): (term: string)
    requires |zone| > 0
    ensures zone[|zone| - 1] == '.' ==> term + "." == zone
    ensures zone[|zone| - 1] != '.' ==> term == zone
  {
    if zone[|zone| - 1] == '.' then zone[..|zone| - 1] else zone
  }

  /** Exactly one dot goes, even when the name before it ends with a dot too. */
  lemma SearchTermDropsOneDot(name: string)
    ensures SearchTerm(name + ".") == name
  {
  }

  /** On a non-empty zone, the search term is what strings.TrimSuffix(zone, ".") gives. */
  lemma SearchTermIsTrimSuffix(zone: string)
    requires |zone| > 0
    ensures SearchTerm(zone) == TrimSuffix(zone, ".")
  {
  }

  /**
   * The record name both Present and CleanUp compute: the fully qualified name
   * without the zone suffix, then without one trailing dot.
   */
  function RelativeName(fqdn: string, zone: string): (name: string)
    ensures name <= fqdn
    ensures |fqdn| - |name| <= |zone| + 1
  {
    TrimSuffix(TrimSuffix(fqdn, zone), ".")
  }

  /**
   * Under the zone, the name is the fully qualified name minus the zone and minus
   * at most one separating dot: the dot goes exactly when `fqdn` ends with "." + zone.
   */
  lemma RelativeNameUnderZone(fqdn: string, zone: string)
    requires HasSuffix(fqdn, zone)
    ensures HasSuffix(fqdn, "." + zone) ==> RelativeName(fqdn, zone) + "." + zone == fqdn
    ensures !HasSuffix(fqdn, "." + zone) ==> RelativeName(fqdn, zone) + zone == fqdn
  {
  }

  /** Outside the zone only one trailing dot of the fully qualified name goes. */
  lemma RelativeNameOutsideZone(fqdn: string, zone: string)
    requires !HasSuffix(fqdn, zone)
    ensures HasSuffix(fqdn, ".") ==> RelativeName(fqdn, zone) + "." == fqdn
    ensures !HasSuffix(fqdn, ".") ==> RelativeName(fqdn, zone) == fqdn
  {
  }

  /** The worked example: the challenge name under "example.com." is "_acme-challenge". */
  lemma RelativeNameExample()
    ensures RelativeName("_acme-challenge.example.com.", "example.com.") == "_acme-challenge"
  {
  }
}
