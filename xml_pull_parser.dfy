/** The event codes, feature names and property names of the XmlPull API that `MXParser` implements. */
module PullApi {
  import opened Kotlin

  /** The events a pull parser reports, as their XmlPull integer codes. */
  newtype EventType = c: int | 0 <= c <= 10

  const START_DOCUMENT: EventType := 0
  const END_DOCUMENT: EventType := 1
  const START_TAG: EventType := 2
  const END_TAG: EventType := 3
  const TEXT: EventType := 4
  const CDSECT: EventType := 5
  const ENTITY_REF: EventType := 6
  const IGNORABLE_WHITESPACE: EventType := 7
  const PROCESSING_INSTRUCTION: EventType := 8
  const COMMENT: EventType := 9
  const DOCDECL: EventType := 10

  const NO_NAMESPACE: Str := []

  const FEATURES: Str := Lit("http://xmlpull.org/v1/doc/features.html#")
  const PROPERTIES: Str := Lit("http://xmlpull.org/v1/doc/properties.html#")

  const FEATURE_PROCESS_NAMESPACES: Str := FEATURES + Lit("process-namespaces")
  const FEATURE_PROCESS_DOCDECL: Str := FEATURES + Lit("process-docdecl")
  const FEATURE_XML_ROUNDTRIP: Str := FEATURES + Lit("xml-roundtrip")
  const FEATURE_NAMES_INTERNED: Str := FEATURES + Lit("names-interned")

  const PROPERTY_XMLDECL_VERSION: Str := PROPERTIES + Lit("xmldecl-version")
  const PROPERTY_XMLDECL_STANDALONE: Str := PROPERTIES + Lit("xmldecl-standalone")
  const PROPERTY_XMLDECL_CONTENT: Str := PROPERTIES + Lit("xmldecl-content")
  const PROPERTY_LOCATION: Str := PROPERTIES + Lit("location")

  /** A property value, as `getProperty` returns it through `Any?`. */
  datatype PropertyValue = NullValue | StringValue(s: Str) | BooleanValue(b: bool)
}
