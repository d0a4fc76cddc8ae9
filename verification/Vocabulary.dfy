/** Names that both the server and the browser client write out. */
module Vocabulary {

  const POD := "https://lukasberka.github.io/ldp-personal-store/vocab#"
  const RDF_TYPE_IRI := "http://www.w3.org/1999/02/22-rdf-syntax-ns#type"
}
