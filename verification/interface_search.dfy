/**
 `usb_match_any_interface`: does some interface of some configuration of the
 device match a rule? Only the first alternate setting of each interface is
 examined, and interfaces without alternate settings are skipped.
 */
module InterfaceSearch {
  import opened Descriptors
  import opened DeviceIds

  /** Interface `j` of configuration `i` has an alternate setting 0, and it matches `id`. */
  predicate MatchesAt(m: Matcher, dev: DeviceTree, id: DeviceId, i: nat, j: nat)
    requires ConfigsReady(dev)
    requires i < dev.descriptor.bNumConfigurations
    requires j < dev.config[i].desc.bNumInterfaces
  {
    var cache := dev.config[i].intfCache[j];
    |cache.altsetting| > 0 && m.intf(dev.descriptor, cache.altsetting[0], id)
  }

  /** The existential the search decides. */
  predicate SomeInterfaceMatches(m: Matcher, dev: DeviceTree, id: DeviceId)
    requires ConfigsReady(dev)
  {
    exists i: nat, j: nat ::
      && i < dev.descriptor.bNumConfigurations
      && j < dev.config[i].desc.bNumInterfaces
      && MatchesAt(m, dev, id, i, j)
  }

  /** The inner loop over interfaces `j..bNumInterfaces-1` of configuration `i`. */
  function SearchInterfaces(m: Matcher, dev: DeviceTree, id: DeviceId, i: nat, j: nat): (found: bool)
    requires ConfigsReady(dev)
    requires i < dev.descriptor.bNumConfigurations
    requires j <= dev.config[i].desc.bNumInterfaces
    ensures found <==> exists j': nat :: j <= j' < dev.config[i].desc.bNumInterfaces && MatchesAt(m, dev, id, i, j')
    decreases dev.config[i].desc.bNumInterfaces - j
  {
    if j == dev.config[i].desc.bNumInterfaces then
      false
    else
      var cache := dev.config[i].intfCache[j];
      if |cache.altsetting| == 0 then
        SearchInterfaces(m, dev, id, i, j + 1)
      else if m.intf(dev.descriptor, cache.altsetting[0], id) then
        assert MatchesAt(m, dev, id, i, j);
        true
      else
        SearchInterfaces(m, dev, id, i, j + 1)
  }

  /** The outer loop over configurations `i..bNumConfigurations-1`. */
  function SearchConfigs(m: Matcher, dev: DeviceTree, id: DeviceId, i: nat): (found: bool)
    requires ConfigsReady(dev)
    requires i <= dev.descriptor.bNumConfigurations
    ensures found <==> exists i': nat, j: nat ::
      && i <= i' < dev.descriptor.bNumConfigurations
      && j < dev.config[i'].desc.bNumInterfaces
      && MatchesAt(m, dev, id, i', j)
    decreases dev.descriptor.bNumConfigurations - i
  {
    if i == dev.descriptor.bNumConfigurations then
      false
    else
      SearchInterfaces(m, dev, id, i, 0) || SearchConfigs(m, dev, id, i + 1)
  }

  /** `usb_match_any_interface`. */
  function MatchAnyInterface(m: Matcher, dev: DeviceTree, id: DeviceId): (found: bool)
    requires ConfigsReady(dev)
    ensures found <==> SomeInterfaceMatches(m, dev, id)
    ensures dev.descriptor.bNumConfigurations == 0 ==> !found
  {
    SearchConfigs(m, dev, id, 0)
  }

  /** The answer depends on the interface matcher only through its verdicts on
      alternate setting 0 of interfaces that have one: two matchers that agree
      there give the same answer, whatever they say about other alternate
      settings or about empty caches. */
  lemma SearchReadsOnlyFirstAltsetting(m1: Matcher, m2: Matcher, dev: DeviceTree, id: DeviceId)
    requires ConfigsReady(dev)
    requires forall i: nat, j: nat ::
      i < dev.descriptor.bNumConfigurations && j < dev.config[i].desc.bNumInterfaces
      && |dev.config[i].intfCache[j].altsetting| > 0 ==>
        m1.intf(dev.descriptor, dev.config[i].intfCache[j].altsetting[0], id)
        == m2.intf(dev.descriptor, dev.config[i].intfCache[j].altsetting[0], id)
    ensures MatchAnyInterface(m1, dev, id) == MatchAnyInterface(m2, dev, id)
  {
    if MatchAnyInterface(m1, dev, id) {
      var i: nat, j: nat :| i < dev.descriptor.bNumConfigurations && j < dev.config[i].desc.bNumInterfaces
        && MatchesAt(m1, dev, id, i, j);
      assert MatchesAt(m2, dev, id, i, j);
    }
    if MatchAnyInterface(m2, dev, id) {
      var i: nat, j: nat :| i < dev.descriptor.bNumConfigurations && j < dev.config[i].desc.bNumInterfaces
        && MatchesAt(m2, dev, id, i, j);
      assert MatchesAt(m1, dev, id, i, j);
    }
  }

  /** Alternate settings after index 0 are never inspected: replacing them
      in one interface cache leaves the answer unchanged. */
  lemma LaterAltsettingsIrrelevant(m: Matcher, dev: DeviceTree, id: DeviceId, i: nat, j: nat, rest: seq<InterfaceDescriptor>)
    requires ConfigsReady(dev)
    requires i < dev.descriptor.bNumConfigurations
    requires j < dev.config[i].desc.bNumInterfaces
    requires |dev.config[i].intfCache[j].altsetting| > 0
    ensures
      var cache := dev.config[i].intfCache[j];
      var cache' := InterfaceCache([cache.altsetting[0]] + rest);
      var cfg' := dev.config[i].(intfCache := dev.config[i].intfCache[j := cache']);
      var dev' := dev.(config := dev.config[i := cfg']);
      ConfigsReady(dev') && MatchAnyInterface(m, dev', id) == MatchAnyInterface(m, dev, id)
  {
    var cache := dev.config[i].intfCache[j];
    var cache' := InterfaceCache([cache.altsetting[0]] + rest);
    var cfg' := dev.config[i].(intfCache := dev.config[i].intfCache[j := cache']);
    var dev' := dev.(config := dev.config[i := cfg']);
    assert ConfigsReady(dev');
    forall i': nat, j': nat | i' < dev.descriptor.bNumConfigurations && j' < dev.config[i'].desc.bNumInterfaces
      ensures MatchesAt(m, dev', id, i', j') == MatchesAt(m, dev, id, i', j')
    {
    }
    if MatchAnyInterface(m, dev, id) {
      var a: nat, b: nat :| a < dev.descriptor.bNumConfigurations && b < dev.config[a].desc.bNumInterfaces
        && MatchesAt(m, dev, id, a, b);
      assert MatchesAt(m, dev', id, a, b);
    }
    if MatchAnyInterface(m, dev', id) {
      var a: nat, b: nat :| a < dev'.descriptor.bNumConfigurations && b < dev'.config[a].desc.bNumInterfaces
        && MatchesAt(m, dev', id, a, b);
      assert MatchesAt(m, dev, id, a, b);
    }
  }
}
