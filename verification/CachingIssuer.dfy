/** The certificate issuer of internal/pki/pki.go: a map into a doubly linked list, bounded in length. */
module CachingIssuer {
  import opened Results
  import opened Seqs
  import opened Certificates
  import opened LinkedList
  import opened Issuing
  import opened CacheRuns
  import PkiHosts

  class Issuer {
    const root: Certificate
    const intermediate: Certificate
    const hosts: set<string>
    const suffixes: seq<string>
    const leafValidity: Duration
    const cacheSize: nat
    var cache: map<string, Element<CacheEntry>>
    const lru: List<CacheEntry>
    /** Every call so far. */
    ghost var history: seq<Call>

    constructor (s: Settings)
      requires s.cacheSize > 0
      ensures Valid() && Config() == s && history == []
      ensures fresh(lru) && fresh(lru.root)
    {
      root, intermediate := s.root, s.intermediate;
      hosts, suffixes := s.hosts, s.suffixes;
      leafValidity, cacheSize := s.leafValidity, s.cacheSize;
      cache := map[];
      lru := new List();
      history := [];
    }

    function Config(): Settings {
      Settings(root, intermediate, hosts, suffixes, leafValidity, cacheSize)
    }

    /** The cache is in bounds and is what the history of calls leaves behind. */
    ghost predicate Valid()
      reads this, lru, lru.root, lru.Nodes
    {
      && InBounds()
      && Entries() == After(Config(), [], history)
    }

    ghost predicate InBounds()
      reads this, lru, lru.root, lru.Nodes
    {
      && Consistent()
      && |lru.Nodes| <= cacheSize
    }

    ghost predicate Consistent()
      reads this, lru, lru.root, lru.Nodes
    {
      && lru.Valid()
      && 0 < cacheSize
      && Agree(cache, lru.Nodes)
    }

    /**
     The map and the list agree: the map's keys are exactly the hosts in the list, each key points
     at the element that holds its host, and every cached leaf was issued for its own host.
     */
    static ghost predicate Agree(cache: map<string, Element<CacheEntry>>, nodes: seq<Element<CacheEntry>>) {
      && (forall e :: e in nodes ==>
            && e.value.Some?
            && e.value.value.host == e.value.value.leaf.host
            && e.value.value.host in cache
            && cache[e.value.value.host] == e)
      && (forall h :: h in cache ==> cache[h] in nodes && cache[h].value.Some? && cache[h].value.value.host == h)
    }

    static ghost function EntriesOf(nodes: seq<Element<CacheEntry>>): seq<CacheEntry>
      requires forall e :: e in nodes ==> e.value.Some?
    {
      seq(|nodes|, i requires 0 <= i < |nodes| => assert nodes[i] in nodes; nodes[i].value.value)
    }

    /** The cached entries, most recently used first. */
    ghost function Entries(): seq<CacheEntry>
      requires Consistent()
      reads this, lru, lru.root, lru.Nodes
    {
      EntriesOf(lru.Nodes)
    }

    /** A host is found through the map exactly when it is in the list, at the position the map points to. */
    lemma Find(host: string) returns (k: nat)
      requires InBounds()
      ensures k == IndexOf(Entries(), host)
      ensures host in cache <==> k < |Entries()|
      ensures host in cache ==> lru.Nodes[k] == cache[host]
    {
      k := IndexOf(Entries(), host);
      if host in cache {
        var j :| 0 <= j < |lru.Nodes| && lru.Nodes[j] == cache[host];
        assert Entries()[j].host == host;
        assert k < |lru.Nodes|;
      }
      if k < |lru.Nodes| {
        assert lru.Nodes[k] in lru.Nodes && Entries()[k].host == host;
      }
    }

    /** Taking a host's element out of the list and its key out of the map keeps them in agreement. */
    static lemma AgreeWithout(cache: map<string, Element<CacheEntry>>, nodes: seq<Element<CacheEntry>>, k: nat)
      requires Agree(cache, nodes) && Distinct(nodes) && k < |nodes|
      ensures nodes[k].value.Some?
      ensures Agree(cache - {nodes[k].value.value.host}, Pop(nodes, k))
      ensures EntriesOf(Pop(nodes, k)) == Pop(EntriesOf(nodes), k)
    {
    }

    static lemma AgreeWith(
        cache: map<string, Element<CacheEntry>>, nodes: seq<Element<CacheEntry>>,
        e: Element<CacheEntry>, entry: CacheEntry)
      requires Agree(cache, nodes)
      requires e.value == Some(entry) && entry.host == entry.leaf.host && entry.host !in cache
      ensures Agree(cache[entry.host := e], [e] + nodes)
      ensures EntriesOf([e] + nodes) == [entry] + EntriesOf(nodes)
    {
    }

    method GetCertificate(hello: Option<string>, now: Time, signing: Signing) returns (r: Result<Leaf, Error>)
      requires Valid()
      modifies this, lru, lru.root, lru.Nodes
      ensures Valid()
      ensures fresh(set e | e in lru.Nodes && e !in old(lru.Nodes))
      ensures history == old(history) + [Call(hello, now, signing)]
      ensures r == Answer(Config(), [], history)
    {
      r := CheckAndLookup(hello, now, signing);
      history := history + [Call(hello, now, signing)];
      assert history[..|history|-1] == old(history);
    }

    /** The body of GetCertificate; the lock is held throughout. */
    method CheckAndLookup(hello: Option<string>, now: Time, signing: Signing) returns (r: Result<Leaf, Error>)
      requires InBounds()
      modifies this`cache, lru, lru.root, lru.Nodes
      ensures InBounds()
      ensures fresh(set e | e in lru.Nodes && e !in old(lru.Nodes))
      ensures Served(Entries(), r) == Issuing.Serve(Config(), old(Entries()), Call(hello, now, signing))
    {
      if hello == None {
        return Err(NoHello);
      }
      var normalized := PkiHosts.NormalizeHost(hello.value);
      if normalized.Err? {
        return Err(InvalidSni(normalized.error));
      }
      var host := normalized.value;
      if !Allows(Config(), host) {
        return Err(NotConfigured(host));
      }
      var unready := ReadyAt(Config(), now);
      if unready.Some? {
        return Err(unready.value);
      }
      r := Lookup(host, now, signing);
    }

    /** The part of GetCertificate behind the checks. */
    method Lookup(host: string, now: Time, signing: Signing) returns (r: Result<Leaf, Error>)
      requires InBounds()
      modifies this`cache, lru, lru.root, lru.Nodes
      ensures InBounds()
      ensures fresh(set e | e in lru.Nodes && e !in old(lru.Nodes))
      ensures Served(Entries(), r) == ServeAdmitted(Config(), old(Entries()), host, now, signing)
    {
      ghost var k := Find(host);
      if host in cache {
        var element := cache[host];
        var entry := element.value.value;
        assert entry == Entries()[k];
        if !NeedsRenewal(entry.leaf, now) {
          Promote(element, k);
          return Ok(entry.leaf);
        }
        Discard(element, k);
      }
      assert forall i :: 0 <= i < |lru.Nodes| ==> lru.Nodes[i] in old(lru.Nodes);
      r := Fill(host, now, signing);
    }

    method Promote(element: Element<CacheEntry>, ghost k: nat)
      requires InBounds() && k < |lru.Nodes| && lru.Nodes[k] == element
      modifies this`cache, lru, lru.root, lru.Nodes
      ensures InBounds()
      ensures Entries() == old([Entries()[k]] + Pop(Entries(), k))
      ensures forall e :: e in lru.Nodes ==> e in old(lru.Nodes)
    {
      AgreeWithout(cache, lru.Nodes, k);
      ghost var entry := element.value.value;
      AgreeWith(cache - {entry.host}, Pop(lru.Nodes, k), element, entry);
      assert (cache - {entry.host})[entry.host := element] == cache;
      PopDistinct(lru.Nodes, k);
      lru.MoveToFront(element, k);
    }

    method Discard(element: Element<CacheEntry>, ghost k: nat)
      requires InBounds() && k < |lru.Nodes| && lru.Nodes[k] == element
      modifies this`cache, lru, lru.root, lru.Nodes
      ensures InBounds()
      ensures Entries() == old(Pop(Entries(), k)) && old(Entries()[k].host) !in cache
      ensures forall e :: e in lru.Nodes ==> e in old(lru.Nodes)
    {
      AgreeWithout(cache, lru.Nodes, k);
      PopDistinct(lru.Nodes, k);
      lru.Remove(element, k);
      cache := cache - {element.value.value.host};
    }

    /** Issues a leaf for a host that is not cached, and evicts from the back. */
    method Fill(host: string, now: Time, signing: Signing) returns (r: Result<Leaf, Error>)
      requires InBounds() && host !in cache
      modifies this`cache, lru, lru.root, lru.Nodes
      ensures InBounds()
      ensures fresh(set e | e in lru.Nodes && e !in old(lru.Nodes))
      ensures r == Issue(Config(), host, now, signing)
      ensures r.Err? ==> Entries() == old(Entries())
      ensures r.Ok? ==> Entries() == Evicted([CacheEntry(host, r.value)] + old(Entries()), cacheSize)
    {
      r := Issue(Config(), host, now, signing);
      if r.Err? {
        return;
      }
      ghost var nodes := lru.Nodes;
      var element := lru.PushFront(CacheEntry(host, r.value));
      AgreeWith(cache, nodes, element, CacheEntry(host, r.value));
      cache := cache[host := element];
      if lru.len > cacheSize {
        Evict();
      }
    }

    /** Drops the least recently used entry from the list and the map. */
    method Evict()
      requires Consistent() && lru.Nodes != []
      modifies this`cache, lru, lru.root, lru.Nodes
      ensures Consistent()
      ensures Entries() == old(Entries()[..|Entries()|-1])
      ensures forall e :: e in lru.Nodes ==> e in old(lru.Nodes)
    {
      var oldest := lru.Back();
      ghost var last := |lru.Nodes| - 1;
      AgreeWithout(cache, lru.Nodes, last);
      var entry := oldest.value.value;
      cache := cache - {entry.host};
      lru.Remove(oldest, last);
    }

    method CacheLen() returns (n: nat)
      requires Valid()
      ensures n == |After(Config(), [], history)| <= cacheSize
    {
      n := lru.len;
    }
  }
}
