/** The cross-namespace policy on an InstanceRef (api/v1alpha1/cross_namespace_validator.go). */
module Allowlist {
  import opened Outcomes
  import opened Text

  datatype InstanceRef = InstanceRef(name: string, namespace: string)

  /** What the lookup of the target SonarQubeInstance returns: an error (missing or unreadable), or
      the value of its opt-in annotation, empty when the annotation is absent. */
  datatype Lookup = LookupFailed | Found(annotation: string)

  /** The policy: same namespace, or an annotation that is "*" or lists the caller. */
  ghost predicate Allows(callerNamespace: string, ref: InstanceRef, lookup: Lookup) {
    || ref.namespace == ""
    || ref.namespace == callerNamespace
    || (lookup.Found? && Lists(TrimSpace(lookup.annotation), callerNamespace))
  }

  ghost predicate Lists(allowed: string, callerNamespace: string) {
    && allowed != ""
    && (allowed == "*" || exists entry :: entry in Split(allowed, ',') && TrimSpace(entry) == callerNamespace)
  }

  method ValidateInstanceRefNamespace(callerNamespace: string, ref: InstanceRef, lookup: Lookup)
    returns (admitted: bool)
    ensures admitted <==> Allows(callerNamespace, ref, lookup)
    ensures ref.namespace == "" || ref.namespace == callerNamespace ==> admitted
    ensures ref.namespace != "" && ref.namespace != callerNamespace && lookup.LookupFailed? ==> !admitted
  {
    var targetNS := ref.namespace;
    if targetNS == "" || targetNS == callerNamespace {
      return true;
    }
    if lookup.LookupFailed? {
      return false;
    }
    var allowed := TrimSpace(lookup.annotation);
    if allowed == "" {
      return false;
    }
    if allowed == "*" {
      return true;
    }
    var entries := Split(allowed, ',');
    for i := 0 to |entries|
      invariant forall j :: 0 <= j < i ==> TrimSpace(entries[j]) != callerNamespace
    {
      if TrimSpace(entries[i]) == callerNamespace {
        return true;
      }
    }
    return false;
  }

  // ----- what a list an administrator writes means -----

  /** One name with the white space written around it. */
  datatype Entry = Entry(left: string, name: string, right: string) {
    function Written(): string {
      left + name + right
    }

    /** A name is solid and comma-free; the padding is white space. */
    ghost predicate Valid() {
      AllSpace(left) && Solid(name) && AllSpace(right) && ',' !in name
    }
  }

  function WrittenAll(entries: seq<Entry>): (r: seq<string>)
    ensures |r| == |entries|
  {
    seq(|entries|, i requires 0 <= i < |entries| => entries[i].Written())
  }

  ghost predicate ValidEntries(entries: seq<Entry>) {
    entries != [] && forall i :: 0 <= i < |entries| ==> entries[i].Valid()
  }

  /** The same list without its outermost padding. */
  function OuterTrimmed(entries: seq<Entry>): (r: seq<Entry>)
    requires entries != []
    ensures |r| == |entries|
    ensures forall i :: 0 <= i < |r| ==> r[i].name == entries[i].name
  {
    var first := entries[0 := entries[0].(left := "")];
    var k := |entries| - 1;
    first[k := first[k].(right := "")]
  }

  /** A joined list without its outermost padding starts and ends with name characters. */
  lemma {:induction false} JoinEnds(entries: seq<Entry>)
    requires ValidEntries(entries)
    ensures var s := Join(WrittenAll(entries), ',');
            && s != ""
            && (entries[0].left == "" ==> !IsSpace(s[0]))
            && (entries[|entries| - 1].right == "" ==> !IsSpace(s[|s| - 1]))
  {
    var written := WrittenAll(entries);
    if |entries| > 1 {
      var tail := entries[1..];
      assert tail[|tail| - 1] == entries[|entries| - 1];
      JoinEnds(tail);
      assert WrittenAll(tail) == written[1..];
    }
  }

  /** The joined text is its outer padding around the joined text of the trimmed list. */
  lemma {:induction false} JoinPeels(entries: seq<Entry>)
    requires ValidEntries(entries)
    ensures Join(WrittenAll(entries), ',') ==
            entries[0].left + Join(WrittenAll(OuterTrimmed(entries)), ',') + entries[|entries| - 1].right
  {
    var inner := OuterTrimmed(entries);
    if |entries| > 1 {
      var tail := entries[1..];
      var bare := tail[0 := tail[0].(left := "")];
      JoinPeelsRight(entries);
      var right := entries[|entries| - 1 := entries[|entries| - 1].(right := "")];
      assert inner == right[0 := right[0].(left := "")];
      assert WrittenAll(inner)[1..] == WrittenAll(right)[1..];
    }
  }

  lemma {:induction false} JoinPeelsRight(entries: seq<Entry>)
    requires ValidEntries(entries)
    ensures var k := |entries| - 1;
            Join(WrittenAll(entries), ',') ==
            Join(WrittenAll(entries[k := entries[k].(right := "")]), ',') + entries[k].right
  {
    var k := |entries| - 1;
    var cut := entries[k := entries[k].(right := "")];
    if k > 0 {
      JoinPeelsRight(entries[1..]);
      assert WrittenAll(entries[1..]) == WrittenAll(entries)[1..];
      assert cut[1..] == entries[1..][k - 1 := entries[1..][k - 1].(right := "")];
      assert WrittenAll(cut[1..]) == WrittenAll(cut)[1..];
    }
  }

  lemma TrimmedList(entries: seq<Entry>)
    requires ValidEntries(entries)
    ensures TrimSpace(Join(WrittenAll(entries), ',')) == Join(WrittenAll(OuterTrimmed(entries)), ',')
  {
    var inner := OuterTrimmed(entries);
    JoinPeels(entries);
    JoinEnds(inner);
    TrimPadded(entries[0].left, Join(WrittenAll(inner), ','), entries[|entries| - 1].right);
  }

  lemma TrimmedEntries(entries: seq<Entry>)
    requires ValidEntries(entries)
    ensures var parts := Split(Join(WrittenAll(entries), ','), ',');
            && |parts| == |entries|
            && forall i :: 0 <= i < |parts| ==> TrimSpace(parts[i]) == entries[i].name
  {
    var written := WrittenAll(entries);
    forall i | 0 <= i < |written|
      ensures ',' !in written[i] && TrimSpace(written[i]) == entries[i].name
    {
      TrimPadded(entries[i].left, entries[i].name, entries[i].right);
    }
    SplitJoin(written, ',');
  }

  lemma LoneStar(parts: seq<string>)
    requires parts == Split("*", ',')
    ensures |parts| == 1 && TrimSpace(parts[0]) == "*"
  {
    TrimPadded("", "*", "");
    assert "" + "*" + "" == "*";
  }

  /** The written list, read back the way the check reads it, holds exactly the entries' names. */
  lemma WrittenListLists(entries: seq<Entry>, callerNamespace: string)
    requires ValidEntries(entries)
    requires !(|entries| == 1 && entries[0].name == "*")
    ensures Lists(Join(WrittenAll(entries), ','), callerNamespace) <==>
            exists i :: 0 <= i < |entries| && entries[i].name == callerNamespace
  {
    var allowed := Join(WrittenAll(entries), ',');
    JoinEnds(entries);
    TrimmedEntries(entries);
    LoneStar(Split("*", ','));
    var parts := Split(allowed, ',');
    if i :| 0 <= i < |entries| && entries[i].name == callerNamespace {
      assert parts[i] in parts;
    }
  }

  /** For every non-empty written list other than a lone "*", a reference from another namespace to
      an existing instance is admitted exactly when the caller's name is in the list. */
  lemma AllowlistAdmitsExactlyItsNames(callerNamespace: string, ref: InstanceRef, entries: seq<Entry>)
    requires ValidEntries(entries)
    requires !(|entries| == 1 && entries[0].name == "*")
    requires ref.namespace != "" && ref.namespace != callerNamespace
    ensures Allows(callerNamespace, ref, Found(Join(WrittenAll(entries), ','))) <==>
            exists i :: 0 <= i < |entries| && entries[i].name == callerNamespace
  {
    var inner := OuterTrimmed(entries);
    TrimmedList(entries);
    WrittenListLists(inner, callerNamespace);
    assert forall i :: 0 <= i < |entries| ==> inner[i].name == entries[i].name;
  }

  // ----- the other annotations -----

  lemma {:induction false} TrimBlank(s: string)
    requires AllSpace(s)
    ensures TrimSpace(s) == ""
  {
    if s != "" {
      TrimBlank(s[1..]);
    }
  }

  /** An annotation that is missing or blank admits no other namespace. */
  lemma BlankAdmitsNobody(callerNamespace: string, ref: InstanceRef, annotation: string)
    requires ref.namespace != "" && ref.namespace != callerNamespace && AllSpace(annotation)
    ensures !Allows(callerNamespace, ref, Found(annotation))
  {
    TrimBlank(annotation);
  }

  /** A lone "*", with any white space around it, admits every namespace. */
  lemma LoneStarAdmitsEverybody(callerNamespace: string, ref: InstanceRef, left: string, right: string)
    requires AllSpace(left) && AllSpace(right)
    ensures Allows(callerNamespace, ref, Found(left + "*" + right))
  {
    TrimPadded(left, "*", right);
  }
}
