/** Chunk access control (archon_search/acl.py, `is_acl_allowed` and `ChunkVisibility`). */
module Acl {
  import opened Options

  /** No ACL is open, an empty one denies everybody, an empty namespace passes no ACL. */
  predicate IsAclAllowed(acl: Option<seq<string>>, ns: string) {
    acl.None? || (ns != "" && ns in acl.value)
  }

  /** One stored chunk. */
  datatype Row = Row(doc: string, chunk: string, acl: Option<seq<string>>)

  /** The chunks and documents a namespace may not see; an id it never heard of is visible. */
  datatype Visibility = Visibility(hiddenChunks: set<string>, hiddenDocs: set<string>)

  predicate ChunkVisible(v: Visibility, chunk: string) {
    chunk !in v.hiddenChunks
  }

  predicate DocVisible(v: Visibility, doc: string) {
    doc !in v.hiddenDocs
  }

  /** `from_chunk_acls`: a chunk is hidden when a row of it denies the namespace, a document when it has rows
      and all of them do. */
  method FromChunkAcls(rows: seq<Row>, ns: string) returns (v: Visibility)
    ensures forall c :: c in v.hiddenChunks <==>
              exists r | r in rows :: r.chunk == c && r.acl.Some? && (ns == "" || ns !in r.acl.value)
    ensures forall d :: d in v.hiddenDocs <==>
              && (exists r | r in rows :: r.doc == d)
              && (forall r | r in rows && r.doc == d :: r.acl.Some? && (ns == "" || ns !in r.acl.value))
    ensures forall c :: ChunkVisible(v, c) <==> forall r | r in rows && r.chunk == c :: IsAclAllowed(r.acl, ns)
    ensures forall d :: !DocVisible(v, d) <==>
              (exists r | r in rows :: r.doc == d) && (forall r | r in rows && r.doc == d :: !IsAclAllowed(r.acl, ns))
  {
    var hiddenChunks: set<string>, hiddenDocs: set<string>, visibleDocs: set<string> := {}, {}, {};
    for i := 0 to |rows|
      invariant forall c :: c in hiddenChunks <==> exists r | r in rows[..i] :: r.chunk == c && !IsAclAllowed(r.acl, ns)
      invariant forall d :: d in hiddenDocs <==> exists r | r in rows[..i] :: r.doc == d && !IsAclAllowed(r.acl, ns)
      invariant forall d :: d in visibleDocs <==> exists r | r in rows[..i] :: r.doc == d && IsAclAllowed(r.acl, ns)
    {
      assert rows[..i + 1] == rows[..i] + [rows[i]];
      if IsAclAllowed(rows[i].acl, ns) {
        visibleDocs := visibleDocs + {rows[i].doc};
      } else {
        hiddenChunks := hiddenChunks + {rows[i].chunk};
        hiddenDocs := hiddenDocs + {rows[i].doc};
      }
    }
    assert rows[..|rows|] == rows;
    v := Visibility(hiddenChunks, hiddenDocs - visibleDocs);
  }
}
