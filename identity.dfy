/**
 * The per-browser client id kept under `clientId_v1`: read back when one is
 * stored, otherwise made from the clock and a random suffix and stored.
 */
module Identity {
  import opened Common
  import opened Text

  /**
   * The id the page runs with, given what `clientId_v1` holds (`None` when
   * the key is unset), the clock reading `now` and the random base-36 suffix
   * (`Math.random().toString(36).slice(2, 8)`). A stored empty string counts
   * as no id.
   */
  function ClientIdFor(stored: Option<string>, now: nat, suffix: string): (id: string)
    ensures id != ""
    ensures stored.Some? && stored.value != "" ==> id == stored.value
    ensures (stored.None? || stored.value == "") ==> id == "C" + Decimal(now) + suffix
  {
    if stored.Some? && stored.value != "" then stored.value else "C" + Decimal(now) + suffix
  }

  /** What `clientId_v1` holds after the page has loaded: it is written only when no id was stored. */
  function StoredAfterLoad(stored: Option<string>, now: nat, suffix: string): (s: Option<string>)
    ensures s == Some(ClientIdFor(stored, now, suffix))
  {
    if stored.Some? && stored.value != "" then stored else Some("C" + Decimal(now) + suffix)
  }

  /** Once a page has loaded, every later load in the same browser runs with the same id, whatever the clock and the random draw. */
  lemma ClientIdStable(stored: Option<string>, now: nat, suffix: string, later: nat, laterSuffix: string)
    ensures ClientIdFor(StoredAfterLoad(stored, now, suffix), later, laterSuffix) == ClientIdFor(stored, now, suffix)
  {
  }

  /** Fresh ids made at different milliseconds differ when their suffixes are equally long. */
  lemma FreshIdsDiffer(a: nat, b: nat, suffixA: string, suffixB: string)
    requires |suffixA| == |suffixB| && a != b
    ensures ClientIdFor(None, a, suffixA) != ClientIdFor(None, b, suffixB)
  {
    var x, y := "C" + Decimal(a) + suffixA, "C" + Decimal(b) + suffixB;
    if x == y {
      if |Decimal(a)| == |Decimal(b)| {
        assert Decimal(a) == x[1..1 + |Decimal(a)|] == y[1..1 + |Decimal(b)|] == Decimal(b);
        DecimalInjective([], a, b);
      }
    }
  }
}
