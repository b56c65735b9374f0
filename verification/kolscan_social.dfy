/**
 * The kolscan social lookup (`social_lookup`): a dictionary from wallet address to the pair
 * (telegram, twitter), built by a comprehension over the first element of the decoded list.
 * A decoding error, a missing first element or an item without `wallet_address` leaves the
 * lookup empty; any other error (an item that is not an object, an address that cannot be a
 * dictionary key, a first element that cannot be iterated) escapes and fails the window.
 */
module KolscanSocial {
  import opened Wrappers
  import opened JsonValues

  /** `(item.get('telegram'), item.get('twitter'))`. */
  datatype Social = Social(telegram: Json, twitter: Json)

  /** `social_lookup.get(wallet_address, (None, None))`'s default. */
  const NoSocial: Social := Social(JNull, JNull)

  /** The lookup, or the exception that escapes `extract_data` while building it. */
  datatype Lookup = Built(table: map<string, Social>) | Escaped

  /** What one comprehension step does with an item. */
  datatype Step =
    | Insert(address: string, social: Social)  // a string address: a (new or replacing) entry
    | Ignore                                    // a scalar address no string lookup can hit
    | KeyMissing                                // `item['wallet_address']` raises KeyError
    | TypeFails                                 // indexing a non-object, or an unhashable key

  function StepOf(item: Json): Step
  {
    if !item.JObject? then TypeFails
    else if "wallet_address" !in item.fields then KeyMissing
    else
      var address := item.fields["wallet_address"];
      if address.JString? then
        Insert(address.s, Social(Member(item.fields, "telegram"), Member(item.fields, "twitter")))
      else if address.JArray? || address.JObject? then TypeFails
      else Ignore
  }

  /** The comprehension's state: the dictionary so far, or the exception it stopped with. */
  datatype Progress = Building(table: map<string, Social>) | Stopped(step: Step)

  /** The step each item takes, in order. */
  function StepsOf(items: seq<Json>): (steps: seq<Step>)
    ensures |steps| == |items|
    ensures forall k :: 0 <= k < |items| ==> steps[k] == StepOf(items[k])
  {
    seq(|items|, k requires 0 <= k < |items| => StepOf(items[k]))
  }

  /** A step that lets the comprehension go on. */
  predicate Proceeds(step: Step)
  {
    step.Insert? || step.Ignore?
  }

  /** The comprehension running through `steps` in order; the first failing step decides. */
  function Run(steps: seq<Step>): (r: Progress)
    ensures r.Building? <==> forall k :: 0 <= k < |steps| ==> Proceeds(steps[k])
    decreases |steps|
  {
    if steps == [] then Building(map[])
    else
      match Run(steps[..|steps| - 1])
      case Stopped(step) => Stopped(step)
      case Building(table) =>
        match steps[|steps| - 1]
        case Insert(address, social) => Building(table[address := social])
        case Ignore => Building(table)
        case KeyMissing => Stopped(KeyMissing)
        case TypeFails => Stopped(TypeFails)
  }

  /** The dict comprehension over `items`. */
  function Comprehend(items: seq<Json>): Progress
  {
    Run(StepsOf(items))
  }

  /** When the comprehension stops, it is with the first step that does not proceed. */
  lemma {:induction false} FirstFailureDecides(steps: seq<Step>)
    requires Run(steps).Stopped?
    ensures exists k :: 0 <= k < |steps| && steps[k] == Run(steps).step && !Proceeds(steps[k])
                        && forall j :: 0 <= j < k ==> Proceeds(steps[j])
    decreases |steps|
  {
    var n := |steps| - 1;
    var front := steps[..n];
    assert forall j :: 0 <= j < n ==> steps[j] == front[j];
    if Run(front).Stopped? {
      assert Run(steps) == Run(front);
      FirstFailureDecides(front);
      var k :| 0 <= k < n && front[k] == Run(front).step && !Proceeds(front[k])
               && forall j :: 0 <= j < k ==> Proceeds(front[j]);
      assert steps[k] == front[k];
    } else {
      assert Run(steps).step == steps[n] && !Proceeds(steps[n]);
      assert forall j :: 0 <= j < n ==> Proceeds(front[j]);
    }
  }

  /**
   * The lookup built from `json.loads`'s result: `None` is a decoding error.  The first element
   * is iterated: a list item by item, an object by its keys and a string by its characters
   * (either fails at its first entry), and a scalar not at all.
   */
  function BuildLookup(decoded: Option<seq<Json>>): (l: Lookup)
    ensures decoded.None? ==> l == Built(map[])
    ensures decoded == Some([]) ==> l == Built(map[])
    ensures l.Escaped? ==> decoded.Some? && |decoded.value| > 0
  {
    match decoded
    case None => Built(map[])
    case Some(elements) =>
      if elements == [] then Built(map[])
      else
        match elements[0]
        case JArray(items) =>
          (match Comprehend(items)
           case Building(table) => Built(table)
           case Stopped(KeyMissing) => Built(map[])
           case Stopped(_) => Escaped)
        case JObject(fields) => if fields == map[] then Built(map[]) else Escaped
        case JString(s) => if s == [] then Built(map[]) else Escaped
        case _ => Escaped
  }

  /** The handles of an address: its entry, or the (None, None) default. */
  function SocialOf(table: map<string, Social>, address: string): Social
  {
    if address in table then table[address] else NoSocial
  }

  /** Step `k` inserts an entry for `address`. */
  predicate InsertsAt(steps: seq<Step>, k: int, address: string)
    requires 0 <= k < |steps|
  {
    steps[k].Insert? && steps[k].address == address
  }

  /**
   * Last write wins: a built dictionary has an entry exactly for the addresses some step
   * inserts, holding the handles of the last such step.
   */
  lemma LastWriteWins(steps: seq<Step>)
    requires Run(steps).Building?
    ensures var table := Run(steps).table;
            forall a :: a in table <==> exists k :: 0 <= k < |steps| && InsertsAt(steps, k, a)
    ensures var table := Run(steps).table;
            forall a :: a in table ==>
              exists k :: 0 <= k < |steps| && InsertsAt(steps, k, a) && steps[k].social == table[a]
                          && forall j :: k < j < |steps| ==> !InsertsAt(steps, j, a)
  {
    InsertedKeys(steps);
    LastInsertValues(steps);
  }

  /** A built dictionary has an entry exactly for the addresses some step inserts. */
  lemma {:induction false} InsertedKeys(steps: seq<Step>)
    requires Run(steps).Building?
    ensures var table := Run(steps).table;
            forall a :: a in table <==> exists k :: 0 <= k < |steps| && InsertsAt(steps, k, a)
    decreases |steps|
  {
    if steps != [] {
      var n := |steps| - 1;
      var front := steps[..n];
      assert forall j :: 0 <= j < n ==> front[j] == steps[j];
      InsertedKeys(front);
      var table := Run(steps).table;
      forall a ensures a in table <==> exists k :: 0 <= k < |steps| && InsertsAt(steps, k, a) {
        if a in table && !InsertsAt(steps, n, a) {
          var k :| 0 <= k < n && InsertsAt(front, k, a);
          assert InsertsAt(steps, k, a);
        }
        if exists k :: 0 <= k < |steps| && InsertsAt(steps, k, a) {
          var k :| 0 <= k < |steps| && InsertsAt(steps, k, a);
          if k < n {
            assert InsertsAt(front, k, a);
          }
        }
      }
    }
  }

  /** Each entry holds the handles of the last step inserting its address. */
  lemma {:induction false} LastInsertValues(steps: seq<Step>)
    requires Run(steps).Building?
    ensures var table := Run(steps).table;
            forall a :: a in table ==>
              exists k :: 0 <= k < |steps| && InsertsAt(steps, k, a) && steps[k].social == table[a]
                          && forall j :: k < j < |steps| ==> !InsertsAt(steps, j, a)
    decreases |steps|
  {
    if steps != [] {
      var n := |steps| - 1;
      var front := steps[..n];
      assert forall j :: 0 <= j < n ==> front[j] == steps[j];
      LastInsertValues(front);
      var before := Run(front).table;
      var table := Run(steps).table;
      forall a | a in table
        ensures exists k :: 0 <= k < |steps| && InsertsAt(steps, k, a) && steps[k].social == table[a]
                            && forall j :: k < j < |steps| ==> !InsertsAt(steps, j, a)
      {
        if InsertsAt(steps, n, a) {
          assert steps[n].social == table[a];
        } else {
          var k :| 0 <= k < n && InsertsAt(front, k, a) && front[k].social == before[a]
                   && forall j :: k < j < n ==> !InsertsAt(front, j, a);
          assert InsertsAt(steps, k, a);
          forall j | k < j < |steps| ensures !InsertsAt(steps, j, a) {
            if j < n {
              assert !InsertsAt(front, j, a);
            }
          }
        }
      }
    }
  }

  /** The step that stops the comprehension is the first one that does not proceed. */
  lemma StopsAtFirst(steps: seq<Step>, k: int)
    requires 0 <= k < |steps| && !Proceeds(steps[k])
    requires forall j :: 0 <= j < k ==> Proceeds(steps[j])
    ensures Run(steps) == Stopped(steps[k])
  {
    FirstFailureDecides(steps);
    var i :| 0 <= i < |steps| && steps[i] == Run(steps).step && !Proceeds(steps[i])
             && forall j :: 0 <= j < i ==> Proceeds(steps[j]);
    assert i == k;
  }

  /**
   * With a list first element whose items all proceed, an address's handles are those of the
   * last item listing it, and the (None, None) default when no item lists it.
   */
  lemma LookupOfAddress(items: seq<Json>, rest: seq<Json>, a: string)
    requires forall k :: 0 <= k < |items| ==> Proceeds(StepOf(items[k]))
    ensures BuildLookup(Some([JArray(items)] + rest)).Built?
    ensures var table := BuildLookup(Some([JArray(items)] + rest)).table;
            && ((forall k :: 0 <= k < |items| ==> !InsertsAt(StepsOf(items), k, a)) ==> SocialOf(table, a) == NoSocial)
            && (forall k :: 0 <= k < |items| && InsertsAt(StepsOf(items), k, a)
                  && (forall j :: k < j < |items| ==> !InsertsAt(StepsOf(items), j, a))
                  ==> SocialOf(table, a) == StepOf(items[k]).social)
  {
    var steps := StepsOf(items);
    assert Run(steps).Building?;
    var table := Run(steps).table;
    assert BuildLookup(Some([JArray(items)] + rest)) == Built(table) by {
      assert ([JArray(items)] + rest)[0] == JArray(items);
    }
    LastWriteWins(steps);
    forall k | 0 <= k < |items| && InsertsAt(steps, k, a) && (forall j :: k < j < |items| ==> !InsertsAt(steps, j, a))
      ensures SocialOf(table, a) == StepOf(items[k]).social
    {
      var i :| 0 <= i < |steps| && InsertsAt(steps, i, a) && steps[i].social == table[a]
               && forall j :: i < j < |steps| ==> !InsertsAt(steps, j, a);
      assert i == k;
    }
  }

  /**
   * Items are taken in order and the first one that raises decides: a missing
   * `wallet_address` empties the lookup, an item that is not an object or has an unhashable
   * address makes it escape.
   */
  lemma FirstRaisingItemDecides(items: seq<Json>, rest: seq<Json>, k: int)
    requires 0 <= k < |items| && !Proceeds(StepOf(items[k]))
    requires forall j :: 0 <= j < k ==> Proceeds(StepOf(items[j]))
    ensures StepOf(items[k]).KeyMissing? ==> BuildLookup(Some([JArray(items)] + rest)) == Built(map[])
    ensures StepOf(items[k]).TypeFails? ==> BuildLookup(Some([JArray(items)] + rest)) == Escaped
  {
    StopsAtFirst(StepsOf(items), k);
  }

  /**
   * A missing `wallet_address` anywhere before the first type error empties the whole lookup,
   * even when earlier items were fine.
   */
  lemma MissingKeyEmptiesLookup(items: seq<Json>, rest: seq<Json>)
    requires Comprehend(items).Building?
    ensures BuildLookup(Some([JArray(items + [JObject(map[])])] + rest)) == Built(map[])
  {
    var all := items + [JObject(map[])];
    assert all[..|all| - 1] == items;
  }
}
