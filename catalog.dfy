/** The category catalog: category name to its allowed sub-categories, read
    once at startup from `categories.json`. */
module Catalog {

  type Categories = map<string, seq<string>>

  /** The catalog in force when `categories.json` is missing. */
  const Fallback: Categories := map["misc" := ["other"]]

  /** The catalog in force: the parsed `categories.json` when the file was
      found, the fallback otherwise. */
  function InForce(fileFound: bool, parsed: Categories): (r: Categories)
    ensures fileFound ==> r == parsed
    ensures !fileFound ==> r.Keys == {"misc"} && r["misc"] == ["other"]
  {
    if fileFound then parsed else Fallback
  }

  /** Without `categories.json` the only sale category accepted is "misc"
      with sub-category "other", the pair the migration writes. */
  lemma FallbackAccepts(fileFound: bool, parsed: Categories, category: string, subCategory: string)
    requires !fileFound
    ensures Check(InForce(fileFound, parsed), category, subCategory) == Accepted
            <==> category == "misc" && subCategory == "other"
    ensures Check(InForce(fileFound, parsed), category, subCategory) == UnknownCategory
            <==> category != "misc"
  {
    assert Fallback["misc"] == ["other"];
  }

  /** The category check of `create_sale`, in the order the handler runs it:
      the category first, then the sub-category within it. */
  datatype Verdict = Accepted | UnknownCategory | UnknownSubCategory

  function Check(categories: Categories, category: string, subCategory: string): (v: Verdict)
    ensures v == Accepted <==> category in categories && subCategory in categories[category]
    ensures v == UnknownCategory <==> category !in categories
  {
    if category !in categories then UnknownCategory
    else if subCategory !in categories[category] then UnknownSubCategory
    else Accepted
  }
}
