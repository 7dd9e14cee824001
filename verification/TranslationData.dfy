/** The records of the translation store (translate/translate.go:25-42).
    Times are integers; 0 is Go's zero time. */
module TranslationData {
  datatype Unit = Unit(value: string, timestamp: int)

  /** The four maps of `translationsDB`; its lock is not modelled. */
  datatype Db = Db(
    hashToIP: map<string, Unit>,
    hashToNodeNames: map<string, seq<Unit>>,
    ipToNodeNames: map<string, seq<Unit>>,
    ipToMethods: map<string, seq<Unit>>)

  function Units(m: map<string, seq<Unit>>, key: string): seq<Unit> {
    if key in m then m[key] else []
  }
}
