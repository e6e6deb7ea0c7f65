/**
 * The parts of the xml crate the Print Schema layer leans on: qualified names,
 * namespace tables and the four namespace URIs of the Print Schema vocabulary
 * (src/ticket/document/mod.rs).
 */
module XmlName {
  import opened Base

  /** The xml crate's `OwnedName`. Equality is structural: the prefix takes part in it. */
  datatype OwnedName = OwnedName(localName: string, namespace: Option<string>, prefix: Option<string>)

  /** `OwnedName::qualified(local, ns, prefix)` */
  function Qualified(local: string, ns: string, prefix: Option<string>): OwnedName
  {
    OwnedName(local, Some(ns), prefix)
  }

  /** `OwnedName::local(local)` */
  function Local(local: string): OwnedName
  {
    OwnedName(local, None, None)
  }

  const NS_PSF: string := "http://schemas.microsoft.com/windows/2003/08/printing/printschemaframework"
  const NS_PSK: string := "http://schemas.microsoft.com/windows/2003/08/printing/printschemakeywords"
  const NS_XSD: string := "http://www.w3.org/2001/XMLSchema"
  const NS_XSI: string := "http://www.w3.org/2001/XMLSchema-instance"

  /** A namespace table (the xml crate's `Namespace`): prefix to URI. */
  type Namespace = map<string, string>

  /** `Namespace::get` */
  function Lookup(ns: Namespace, prefix: string): (r: Option<string>)
    ensures r.Some? <==> prefix in ns
    ensures r.Some? ==> r.value == ns[prefix]
  {
    if prefix in ns then Some(ns[prefix]) else None
  }

  /**
   * `Namespace::put`: the xml crate never overrides a binding that is already
   * present, so the first binding of a prefix wins.
   */
  function Put(ns: Namespace, prefix: string, uri: string): (r: Namespace)
    ensures r.Keys == ns.Keys + {prefix}
    ensures forall p :: p in ns ==> r[p] == ns[p]
    ensures prefix !in ns ==> r[prefix] == uri
  {
    if prefix in ns then ns else ns[prefix := uri]
  }

  /** Position of the first `:` in `s` (`str::find(':')`). */
  function FindColon(s: string): (r: Option<nat>)
    ensures r.None? <==> ':' !in s
    ensures r.Some? ==> r.value < |s| && s[r.value] == ':' && ':' !in s[..r.value]
  {
    if |s| == 0 then None
    else if s[0] == ':' then Some(0)
    else match FindColon(s[1..])
      case None => None
      case Some(i) =>
        assert s[..i + 1] == [s[0]] + s[1..][..i];
        Some(i + 1)
  }

  /**
   * The xml crate's `Display` for names: `{uri}` when a namespace is present,
   * then `prefix:` when a prefix is present, then the local name.
   */
  function DisplayName(n: OwnedName): string
  {
    (match n.namespace case Some(u) => "{" + u + "}" case None => "")
    + (match n.prefix case Some(p) => p + ":" case None => "")
    + n.localName
  }
}
