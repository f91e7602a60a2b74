/** The receiver's options and the defaults it fills in for the ones left unset. */
module ReceiverOptions {

  /** The option keys the receiver knows. */
  datatype Key =
    | EhloValidationCheck
    | SenderCharacterCheck
    | RecipientCharacterCheck
    | SenderMxCheck
    | RecipientMxCheck
    | MaxFailedMsgsPerPeriod

  /** An option value as the caller may give it: `nil`, a boolean, a number, or anything
      else (which Ruby treats as true). */
  datatype Value = Nil | Bool(b: bool) | Number(n: int) | Other

  /** Ruby truthiness: everything but `nil` and `false`. */
  predicate Truthy(v: Value) {
    v != Nil && v != Bool(false)
  }

  /** The constructor's key list with each key's default, in the order it is walked. */
  const OptionList: seq<(Key, Value)> := [
    (EhloValidationCheck, Bool(false)),
    (SenderCharacterCheck, Bool(true)),
    (RecipientCharacterCheck, Bool(true)),
    (SenderMxCheck, Bool(true)),
    (RecipientMxCheck, Bool(true)),
    (MaxFailedMsgsPerPeriod, Number(3))
  ]

  /** The default of a key, as a function of the key. */
  function Default(k: Key): Value {
    match k
    case EhloValidationCheck => Bool(false)
    case MaxFailedMsgsPerPeriod => Number(3)
    case _ => Bool(true)
  }

  /** The walk over a key list: a key the options do not hold gets its default; a key
      they hold, even with `nil` or `false`, keeps its value. */
  function Merge(options: map<Key, Value>, list: seq<(Key, Value)>): map<Key, Value>
    decreases |list|
  {
    if |list| == 0 then options
    else
      var (k, v) := list[0];
      Merge(if k in options then options else options[k := v], list[1..])
  }

  /** The options after the constructor: every known key is present. */
  function MergeDefaults(options: map<Key, Value>): map<Key, Value> {
    Merge(options, OptionList)
  }

  /** The keys a list names. */
  function ListKeys(list: seq<(Key, Value)>): set<Key> {
    set i | 0 <= i < |list| :: list[i].0
  }

  /** The walk adds exactly the keys of the list. */
  lemma {:induction false} MergeKeys(options: map<Key, Value>, list: seq<(Key, Value)>)
    ensures Merge(options, list).Keys == options.Keys + ListKeys(list)
    decreases |list|
  {
    if |list| > 0 {
      var (k, v) := list[0];
      MergeKeys(if k in options then options else options[k := v], list[1..]);
      assert ListKeys(list) == {k} + ListKeys(list[1..]) by {
        forall x | x in ListKeys(list)
          ensures x in {k} + ListKeys(list[1..])
        {
          var i :| 0 <= i < |list| && list[i].0 == x;
          if i > 0 { assert list[1..][i - 1].0 == x; }
        }
      }
    }
  }

  /** A key the options hold keeps its value, even `nil` or `false`. */
  lemma {:induction false} MergeKeeps(options: map<Key, Value>, list: seq<(Key, Value)>, k: Key)
    requires k in options
    ensures k in Merge(options, list) && Merge(options, list)[k] == options[k]
    decreases |list|
  {
    if |list| > 0 {
      var (k0, v) := list[0];
      MergeKeeps(if k0 in options then options else options[k0 := v], list[1..], k);
    }
  }

  /** An absent key takes the value the list pairs it with first. */
  lemma {:induction false} MergeFirst(options: map<Key, Value>, list: seq<(Key, Value)>, i: nat)
    requires i < |list| && list[i].0 !in options
    requires forall j :: 0 <= j < i ==> list[j].0 != list[i].0
    ensures list[i].0 in Merge(options, list) && Merge(options, list)[list[i].0] == list[i].1
    decreases |list|
  {
    var (k, v) := list[0];
    var next := if k in options then options else options[k := v];
    if i == 0 {
      MergeKeeps(next, list[1..], k);
    } else {
      assert list[1..][i - 1] == list[i];
      forall j | 0 <= j < i - 1
        ensures list[1..][j].0 != list[i].0
      {
        assert list[1..][j] == list[j + 1];
      }
      MergeFirst(next, list[1..], i - 1);
    }
  }

  /** After the constructor every known key is present; an absent one holds its
      default and a given one holds the caller's value. */
  lemma MergeDefaultsLookup(options: map<Key, Value>, k: Key)
    ensures k in MergeDefaults(options)
    ensures MergeDefaults(options)[k] == if k in options then options[k] else Default(k)
  {
    if k in options {
      MergeKeeps(options, OptionList, k);
    } else {
      var i := match k
        case EhloValidationCheck => 0
        case SenderCharacterCheck => 1
        case RecipientCharacterCheck => 2
        case SenderMxCheck => 3
        case RecipientMxCheck => 4
        case MaxFailedMsgsPerPeriod => 5;
      assert OptionList[i] == (k, Default(k));
      MergeFirst(options, OptionList, i);
    }
  }

  /** Filling in the defaults twice is filling them in once. */
  lemma MergeDefaultsIdempotent(options: map<Key, Value>)
    ensures MergeDefaults(MergeDefaults(options)) == MergeDefaults(options)
  {
    var once := MergeDefaults(options);
    MergeKeys(options, OptionList);
    MergeKeys(once, OptionList);
    forall k | k in once
      ensures MergeDefaults(once)[k] == once[k]
    {
      MergeKeeps(once, OptionList, k);
    }
  }

  /** The checks the receiver reads, as the truthiness of the merged options. */
  datatype Options = Options(
    ehloValidationCheck: bool,
    senderCharacterCheck: bool,
    recipientCharacterCheck: bool,
    senderMxCheck: bool,
    recipientMxCheck: bool)

  function Settings(options: map<Key, Value>): (o: Options)
    ensures o.ehloValidationCheck <==> EhloValidationCheck in options && Truthy(options[EhloValidationCheck])
    ensures o.senderCharacterCheck <==> SenderCharacterCheck !in options || Truthy(options[SenderCharacterCheck])
    ensures o.recipientCharacterCheck <==> RecipientCharacterCheck !in options || Truthy(options[RecipientCharacterCheck])
    ensures o.senderMxCheck <==> SenderMxCheck !in options || Truthy(options[SenderMxCheck])
    ensures o.recipientMxCheck <==> RecipientMxCheck !in options || Truthy(options[RecipientMxCheck])
  {
    MergeDefaultsLookup(options, EhloValidationCheck);
    MergeDefaultsLookup(options, SenderCharacterCheck);
    MergeDefaultsLookup(options, RecipientCharacterCheck);
    MergeDefaultsLookup(options, SenderMxCheck);
    MergeDefaultsLookup(options, RecipientMxCheck);
    var m := MergeDefaults(options);
    Options(Truthy(m[EhloValidationCheck]), Truthy(m[SenderCharacterCheck]),
            Truthy(m[RecipientCharacterCheck]), Truthy(m[SenderMxCheck]), Truthy(m[RecipientMxCheck]))
  }

  /** With no options given, EHLO validation is off and the character and MX checks
      are on. */
  lemma DefaultSettings()
    ensures Settings(map[]) == Options(false, true, true, true, true)
  {
    MergeDefaultsLookup(map[], EhloValidationCheck);
    MergeDefaultsLookup(map[], SenderCharacterCheck);
    MergeDefaultsLookup(map[], RecipientCharacterCheck);
    MergeDefaultsLookup(map[], SenderMxCheck);
    MergeDefaultsLookup(map[], RecipientMxCheck);
  }
}
