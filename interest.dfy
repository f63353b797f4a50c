/**
 * Which conditional sections an interest type brings in. The form compares its
 * `interest_type` as it stands; the intake handler compares the lower-cased value.
 */
module Interest {

  /** The values offered by the form's interest radio buttons. */
  const InterestTypes: seq<string> := ["entrepreneurship", "client", "both"]

  /** The entrepreneurship (business opportunity) section applies. */
  predicate ShowEntrepreneurship(interestType: string) {
    interestType == "entrepreneurship" || interestType == "both"
  }

  /** The client (wealth solution) section applies. */
  predicate ShowClient(interestType: string) {
    interestType == "client" || interestType == "both"
  }

  /** Each offered value brings in its own sections, and "both" brings in the two. */
  lemma SectionsOfOfferedTypes()
    ensures ShowEntrepreneurship("entrepreneurship") && !ShowClient("entrepreneurship")
    ensures !ShowEntrepreneurship("client") && ShowClient("client")
    ensures ShowEntrepreneurship("both") && ShowClient("both")
  {
  }

  /** A value that is not one of the offered ones brings in neither section. */
  lemma OtherTypesShowNoSection(interestType: string)
    requires interestType !in InterestTypes
    ensures !ShowEntrepreneurship(interestType) && !ShowClient(interestType)
  {
  }
}
