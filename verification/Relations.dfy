/** Program-level relations between nodes: provenance, equivalences, signature bindings. */
module Relations {
  import opened Wrappers

  datatype Justification =
    | Manual(signedBy: string, rationale: string)
    | Z3(artifactPath: string, artifactHash: string, bodyHash: string)
    | DerivedBy(analysis: string, inputs: seq<string>)
    | LiftEquivalence(artifactPath: string, artifactHash: string, note: Option<string>)
    | FamilyLowering(rule: string, pinnedPath: Option<string>, pinnedHash: Option<string>)
    | DecompileLift(textHash: string)
    | OtherKind(kind: string)

  /** Two nodes, by their ids, are claimed to compute the same. */
  datatype Equivalence = Equivalence(
    a: string,
    b: string,
    regime: string,
    enforcement: string,
    justification: Option<Justification>)

  datatype Edge = Edge(source: string, target: string)

  datatype SignatureBinding = SignatureBinding(binFn: string, srcFn: string, abi: string, varnodes: seq<string>)

  /** One ingested file, keyed by its path. */
  datatype Unit = Unit(path: string, content: string)
}
