/** The parsed service tree and the server's lists describe the same services, attribute by attribute. */
module TreeRelation {
  import opened Bits
  import opened GattBytes
  import opened Discovery
  import opened ConformingServer
  import opened AttributeTable
  import opened ServiceGrowth
  import Catalog

  predicate MatchesAll(services: seq<Service>, lists: Lists) {
    && |services| == |lists.groups|
    && forall i :: 0 <= i < |services| ==>
         Matches(services[i], lists.groups[i], lists.characteristics, lists.information)
  }

  predicate Related(attributes: seq<Attribute>, n: nat, services: seq<Service>)
    requires n <= |attributes|
  {
    var groups := GroupList(attributes, n);
    && MatchesAll(services, ListsOf(attributes, n))
    && (groups != [] ==> groups[|groups| - 1].reach == TOP)
    && (forall i :: 0 <= i < |groups| - 1 ==> groups[i].reach <= Seen(attributes, n))
    && (n > 0 && (attributes[n - 1].uuid == PRIMARY || attributes[n - 1].uuid == INCLUDE) ==>
          services != [] && services[|services| - 1].characteristics == [])
  }

  lemma {:induction false} RelatePrimary(attributes: seq<Attribute>, n: nat, services: seq<Service>)
    requires Regular(attributes) && n < |attributes| && Related(attributes, n, services)
    requires attributes[n].uuid == PRIMARY && Catalog.AddAttribute(services, attributes[n]).Some?
    ensures Related(attributes, n + 1, Catalog.AddAttribute(services, attributes[n]).value)
  {
    var a, top := attributes[n], Seen(attributes, n);
    var after := Catalog.AddAttribute(services, a).value;
    var before, lists := ListsOf(attributes, n), ListsOf(attributes, n + 1);
    SeenGrows(attributes, n);
    KeysSeen(attributes, n);
    hide Matches, KeysUpTo, Catalog.AddAttribute, Regular;
    assert after == Catalog.WithService(services, a.handle, a.value) by { PrimaryAdds(services, a); }
    assert lists.information == before.information + [InformationItem(a)]
      && lists.characteristics == before.characteristics;
    assert lists.groups == Closed(before.groups, top) + [Item(a.handle, TOP, 0, a.value)];
    forall i | 0 <= i < |after|
      ensures Matches(after[i], lists.groups[i], lists.characteristics, lists.information)
    {
      if i < |services| {
        var s, g := services[i], before.groups[i];
        if i == |services| - 1 {
          CloseMatches(s, g, before.characteristics, before.information, top, a.handle - 1);
          KeepMatches(s.(end := a.handle - 1), g.(reach := top), before.characteristics, before.characteristics,
            before.information, InformationItem(a));
        } else {
          KeepMatches(s, g, before.characteristics, before.characteristics, before.information, InformationItem(a));
        }
      } else {
        NewMatches(a, before.characteristics, before.information, top);
        AddInclude(Service(a.handle, TOP, a.value, []), Item(a.handle, TOP, 0, a.value), before.characteristics,
          before.information, InformationItem(a));
      }
    }
  }

  lemma {:induction false} PrimaryAdds(services: seq<Service>, a: Attribute)
    requires a.uuid == PRIMARY && a.handle > 0 && Catalog.AddAttribute(services, a).Some?
    ensures Catalog.AddAttribute(services, a).value == Catalog.WithService(services, a.handle, a.value)
  {
  }

  lemma {:induction false} RelateInside(attributes: seq<Attribute>, n: nat, services: seq<Service>)
    requires Regular(attributes) && n < |attributes| && Related(attributes, n, services)
    requires attributes[n].uuid != PRIMARY && Catalog.AddAttribute(services, attributes[n]).Some?
    ensures Related(attributes, n + 1, Catalog.AddAttribute(services, attributes[n]).value)
  {
    SeenGrows(attributes, n);
    hide Matches, KeysUpTo, Catalog.AddAttribute, Regular, GroupList, CharacteristicList, InformationList;
    var a, top := attributes[n], Seen(attributes, n);
    var after := Catalog.AddAttribute(services, a).value;
    var before, lists := ListsOf(attributes, n), ListsOf(attributes, n + 1);
    InsideStep(attributes, n);
    KeysSeen(attributes, n);
    RegularHere(attributes, n);
    InsideNeedsService(services, a);
    var last := |services| - 1;
    AddInside(services, before.groups[last], before.characteristics, before.information, top, a);
    if a.uuid == INCLUDE { IncludeAdds(services, a); }
    OthersMatch(services, before, lists.characteristics, a);
    hide OpenMatches;
  }

  lemma {:induction false} RegularHere(attributes: seq<Attribute>, n: nat)
    requires Regular(attributes) && n < |attributes|
    ensures RegularAt(attributes, n)
  {
  }

  /** What an attribute other than a service declaration adds to the lists. */
  lemma {:induction false} InsideStep(attributes: seq<Attribute>, n: nat)
    requires n < |attributes| && attributes[n].uuid != PRIMARY
    ensures var a, before, lists := attributes[n], ListsOf(attributes, n), ListsOf(attributes, n + 1);
      && lists.groups == before.groups
      && lists.information == before.information + [InformationItem(a)]
      && lists.characteristics ==
           if a.uuid == CHARACTERISTIC && |a.value| >= 3 then before.characteristics + [CharacteristicItem(a)]
           else before.characteristics
  {
  }

  /** The services before the open one are closed, so the attribute is not theirs. */
  lemma {:induction false} OthersMatch(services: seq<Service>, before: Lists, more: seq<Item>, a: Attribute)
    requires MatchesAll(services, before)
    requires forall i :: 0 <= i < |services| - 1 ==> before.groups[i].reach < a.handle
    requires more == before.characteristics ||
             (|a.value| >= 3 && more == before.characteristics + [CharacteristicItem(a)])
    ensures forall i :: 0 <= i < |services| - 1 ==>
      Matches(services[i], before.groups[i], more, before.information + [InformationItem(a)])
  {
    hide Matches;
    forall i | 0 <= i < |services| - 1
      ensures Matches(services[i], before.groups[i], more, before.information + [InformationItem(a)])
    {
      KeepMatches(services[i], before.groups[i], before.characteristics, more, before.information,
        InformationItem(a));
    }
  }

  lemma {:induction false} InsideNeedsService(services: seq<Service>, a: Attribute)
    requires a.uuid != PRIMARY && a.handle > 0 && Catalog.AddAttribute(services, a).Some?
    ensures services != []
  {
  }

  lemma {:induction false} IncludeAdds(services: seq<Service>, a: Attribute)
    requires a.uuid == INCLUDE && a.handle > 0 && Catalog.AddAttribute(services, a).Some?
    ensures Catalog.AddAttribute(services, a).value == services
  {
  }

  /** At every attribute the parser's tree and the server's lists describe the same services. */
  lemma {:induction false} TreeRelated(attributes: seq<Attribute>, n: nat)
    requires Regular(attributes) && n <= |attributes| && Catalog.Tree(attributes[..n]).Some?
    ensures Related(attributes, n, Catalog.Tree(attributes[..n]).value)
  {
    if n > 0 {
      TreeStep(attributes, n);
      TreeRelated(attributes, n - 1);
      var services := Catalog.Tree(attributes[..n - 1]).value;
      hide Related, Catalog.AddAttribute;
      if attributes[n - 1].uuid == PRIMARY {
        RelatePrimary(attributes, n - 1, services);
      } else {
        RelateInside(attributes, n - 1, services);
      }
    }
  }

  lemma {:induction false} TreeStep(attributes: seq<Attribute>, n: nat)
    requires Catalog.AttributesOk(attributes) && 0 < n <= |attributes| && Catalog.Tree(attributes[..n]).Some?
    ensures Catalog.Tree(attributes[..n - 1]).Some?
    ensures Catalog.AddAttribute(Catalog.Tree(attributes[..n - 1]).value, attributes[n - 1]) ==
      Catalog.Tree(attributes[..n])
  {
    assert attributes[..n][..n - 1] == attributes[..n - 1];
  }
}
