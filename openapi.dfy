/** The collaborators CodeMeta reads from an OpenAPI document: schema
    occurrences and the document's reference resolver. Both come from
    modules outside this model, so they are given here by their interfaces
    only. */
module OpenApi {

  /** `SchemaObject | ReferenceObject`. A reference object is what
      `isReferenceObject` recognises, and it carries its `$ref` string;
      the structure of an inline schema does not matter to CodeMeta and is
      kept opaque as its document text. */
  datatype Schema =
    | ReferenceObject(ref: string)
    | SchemaObject(definition: string)

  /** The part of the document resolver that CodeMeta uses:
      `resolveRef(ref).normalized`, the normalised text of the schema a
      reference points to. */
  datatype DocumentResolver = DocumentResolver(normalized: string -> string)
}
