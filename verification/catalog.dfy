/** The framework and version choices offered by the form's two select inputs
    (src/components/Form.js, `frameworks` and `versions`).
 */
module Catalog {
  import opened Values

  const Frameworks: seq<string> := ["angular", "react", "vue"]

  const Versions: map<string, seq<string>> := map[
    "angular" := ["1.1.1", "1.2.1", "1.3.3"],
    "react" := ["2.1.1", "2.2.1", "2.3.3"],
    "vue" := ["3.1.1", "3.2.1", "3.3.3"]
  ]

  /** A version some framework offers. */
  predicate KnownVersion(v: string) {
    exists fw :: fw in Versions && v in Versions[fw]
  }

  /** The version menu (Form.js:155-160): nothing while no framework is chosen,
      otherwise the chosen framework's list. The lookup is only made for a
      chosen framework, which must then have a list. */
  function VersionOptions(framework: Option<string>): (r: seq<string>)
    requires Truthy(framework) ==> framework.value in Versions
    ensures !Truthy(framework) ==> r == []
    ensures Truthy(framework) ==> |r| == 3
    ensures Truthy(framework) ==> forall i :: 0 <= i < |r| ==> r[i] in Versions[framework.value]
  {
    if Truthy(framework) then Versions[framework.value] else []
  }

  /** Every framework on the menu has a version list, and nothing else has one. */
  lemma CatalogIsComplete()
    ensures forall fw :: fw in Versions <==> fw in Frameworks
  {
    forall fw
      ensures fw in Versions <==> fw in Frameworks
    {
      if fw in Frameworks {
        assert fw == Frameworks[0] || fw == Frameworks[1] || fw == Frameworks[2];
      }
    }
  }

  /** No version is offered while no framework is chosen, whether unset or
      empty; each of "angular", "react" and "vue" offers exactly its own three
      versions, in order. */
  lemma VersionOptionsExamples()
    ensures VersionOptions(None) == []
    ensures VersionOptions(Some("")) == []
    ensures VersionOptions(Some("angular")) == ["1.1.1", "1.2.1", "1.3.3"]
    ensures VersionOptions(Some("react")) == ["2.1.1", "2.2.1", "2.3.3"]
    ensures VersionOptions(Some("vue")) == ["3.1.1", "3.2.1", "3.3.3"]
  {
  }

  /** The leading digit every version of a framework shares. */
  function Major(fw: string): char
    requires fw in Versions
  {
    if fw == "angular" then '1' else if fw == "react" then '2' else '3'
  }

  lemma VersionsShareMajor(fw: string, v: string)
    requires fw in Versions && v in Versions[fw]
    ensures |v| > 0 && v[0] == Major(fw)
  {
  }

  /** Different frameworks offer disjoint versions, so a version chosen under
      one framework is not on the menu of another. */
  lemma OptionsAreDisjoint(a: string, b: string, v: string)
    requires a in Versions && b in Versions && a != b
    requires v in VersionOptions(Some(a))
    ensures v !in VersionOptions(Some(b))
  {
    VersionsShareMajor(a, v);
    if v in VersionOptions(Some(b)) {
      VersionsShareMajor(b, v);
    }
  }
}
