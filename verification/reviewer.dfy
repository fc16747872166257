/**
 How `AICodeReviewer.reviewPR` picks the providers for one pull request and reports
 each one's review. The providers record is a parameter: its own keys in `Object.keys`
 order and the behaviour of the provider behind each key.
 */
module Reviewer {
  import opened Results
  import opened Prompt
  import opened Providers

  /** A configured provider seen from outside: given the prompt, it returns a review or throws. */
  type Adapter = string -> Reply

  /** The `providers` record: its own keys in `Object.keys` order and the provider behind each. */
  datatype Registry = Registry(names: seq<string>, adapters: map<string, Adapter>)

  /**
   The properties every plain object inherits from `Object.prototype` under Deno. Reading
   one of them from the record yields a function, which is truthy. Deno removes the
   `__proto__` accessor at startup, so `__proto__` reads as `undefined` and is not here.
   */
  const InheritedNames: set<string> := {
    "constructor", "toString", "toLocaleString", "valueOf", "hasOwnProperty",
    "isPrototypeOf", "propertyIsEnumerable", "__defineGetter__",
    "__defineSetter__", "__lookupGetter__", "__lookupSetter__"
  }

  /** Each key listed once, the list and the map agree, and no key shadows an inherited property. */
  ghost predicate Valid(reg: Registry) {
    && (forall i, j :: 0 <= i < j < |reg.names| ==> reg.names[i] != reg.names[j])
    && (forall n :: n in reg.adapters <==> n in reg.names)
    && (forall n :: n in reg.adapters ==> n !in InheritedNames)
  }

  /** What `this.providers[name]` yields: an own provider, an inherited property, or `undefined`. */
  datatype Property = Own(adapter: Adapter) | Inherited | Absent

  /** Property lookup as JavaScript performs it, prototype chain included. */
  function Lookup(reg: Registry, name: string): Property {
    if name in reg.adapters then Own(reg.adapters[name])
    else if name in InheritedNames then Inherited
    else Absent
  }

  /** Lookup of the record's own keys only, as `Object.hasOwn` would see them. */
  function OwnLookup(reg: Registry, name: string): Property {
    if name in reg.adapters then Own(reg.adapters[name]) else Absent
  }

  /**
   `reviewWithProvider`: the provider's review of the prompt, or `null` when the call
   throws. Calling `reviewCode` on anything but an own provider throws a `TypeError`,
   which the same `catch` turns into `null`.
   */
  function ReviewWithProvider(p: Property, prompt: string): (review: Option<string>)
    ensures review.Some? <==> p.Own? && p.adapter(prompt).Returned?
    ensures review.Some? ==> review.value == p.adapter(prompt).text
  {
    if p.Own? then
      match p.adapter(prompt)
      case Returned(text) => Some(text)
      case Threw(_) => None
    else None
  }

  /** What `reviewPR` reports for one selected name. */
  datatype Event = Skipped(name: string) | Reviewed(name: string, review: string) | Failed(name: string)

  /** `if (review)`: a `null` or empty review is reported as a failure, anything else is printed. */
  function Report(name: string, review: Option<string>): (e: Event)
    ensures e.name == name && !e.Skipped?
    ensures e.Reviewed? <==> review.Some? && review.value != ""
    ensures e.Reviewed? ==> e.review == review.value
  {
    if review.Some? && review.value != "" then Reviewed(name, review.value) else Failed(name)
  }

  /** One turn of the loop: a falsy lookup is skipped, anything else is dispatched. */
  function Step(p: Property, name: string, prompt: string): Event {
    if p.Absent? then Skipped(name) else Report(name, ReviewWithProvider(p, prompt))
  }

  /** The loop over the names, one event per name, in order. */
  function Run(lookup: string -> Property, names: seq<string>, prompt: string): (events: seq<Event>)
    decreases |names|
    ensures |events| == |names|
    ensures forall k :: 0 <= k < |names| ==> events[k] == Step(lookup(names[k]), names[k], prompt)
  {
    if names == [] then [] else [Step(lookup(names[0]), names[0], prompt)] + Run(lookup, names[1..], prompt)
  }

  /** An explicit selection is used as given; an empty one means every registered provider. */
  function ProvidersToUse(reg: Registry, selected: seq<string>): seq<string> {
    if |selected| > 0 then selected else reg.names
  }

  /**
   `reviewPR` as written: a name is dispatched whenever `this.providers[name]` is truthy,
   so only a name that is neither a key nor an inherited property is skipped. A key is
   reviewed exactly when its provider returns non-empty text; an inherited property has
   no `reviewCode`, and the name is reported as failed.
   */
  function ReviewPRAsWritten(reg: Registry, selected: seq<string>, diff: string, files: seq<FileRecord>): (events: seq<Event>)
    ensures var names := ProvidersToUse(reg, selected);
      var prompt := BuildReviewPrompt(diff, files);
      && |events| == |names|
      && (forall k :: 0 <= k < |names| ==> events[k].name == names[k])
      && (forall k :: 0 <= k < |names| ==>
            (events[k].Skipped? <==> names[k] !in reg.adapters && names[k] !in InheritedNames))
      && (forall k :: 0 <= k < |names| && names[k] in reg.adapters ==>
            (events[k].Reviewed? <==> reg.adapters[names[k]](prompt).Returned? && reg.adapters[names[k]](prompt).text != ""))
      && (forall k :: 0 <= k < |names| && names[k] in reg.adapters && events[k].Reviewed? ==>
            events[k].review == reg.adapters[names[k]](prompt).text)
      && (forall k :: 0 <= k < |names| && names[k] !in reg.adapters && names[k] in InheritedNames ==>
            events[k] == Failed(names[k]))
  {
    Run(n => Lookup(reg, n), ProvidersToUse(reg, selected), BuildReviewPrompt(diff, files))
  }

  /**
   `reviewPR` with "configured" read as "an own key of the record". One event per
   effective name, in order: a name outside the record is skipped; a configured one is
   reviewed exactly when its provider returns a non-empty text for the prompt built
   from the diff and files, and fails otherwise.
   */
  function ReviewPR(reg: Registry, selected: seq<string>, diff: string, files: seq<FileRecord>): (events: seq<Event>)
    ensures var names := ProvidersToUse(reg, selected);
      var prompt := BuildReviewPrompt(diff, files);
      && |events| == |names|
      && (forall k :: 0 <= k < |names| ==> events[k].name == names[k])
      && (forall k :: 0 <= k < |names| ==> (events[k].Skipped? <==> names[k] !in reg.adapters))
      && (forall k :: 0 <= k < |names| ==>
            (events[k].Reviewed? <==> names[k] in reg.adapters && reg.adapters[names[k]](prompt).Returned?
                                      && reg.adapters[names[k]](prompt).text != ""))
      && (forall k :: 0 <= k < |names| && events[k].Reviewed? ==> events[k].review == reg.adapters[names[k]](prompt).text)
  {
    Run(n => OwnLookup(reg, n), ProvidersToUse(reg, selected), BuildReviewPrompt(diff, files))
  }

  // ---------------------------------------------------------------------------
  // Properties of the loop
  // ---------------------------------------------------------------------------

  /** A non-empty selection is used in its own order, duplicates included. */
  lemma SelectionKept(reg: Registry, selected: seq<string>, diff: string, files: seq<FileRecord>)
    requires |selected| > 0
    ensures var events := ReviewPR(reg, selected, diff, files);
      |events| == |selected| && forall k :: 0 <= k < |selected| ==> events[k].name == selected[k]
  {
  }

  /** With no selection, every registered provider is dispatched once, in `Object.keys` order, and none is skipped. */
  lemma DefaultSelectsAll(reg: Registry, diff: string, files: seq<FileRecord>)
    requires Valid(reg)
    ensures var events := ReviewPR(reg, [], diff, files);
      && |events| == |reg.names|
      && (forall k :: 0 <= k < |events| ==> events[k].name == reg.names[k] && !events[k].Skipped?)
  {
  }

  /** The loop handles each name on its own: running over `a + b` is running over `a`, then over `b`. */
  lemma {:induction false} RunAppend(lookup: string -> Property, a: seq<string>, b: seq<string>, prompt: string)
    ensures Run(lookup, a + b, prompt) == Run(lookup, a, prompt) + Run(lookup, b, prompt)
    decreases |a|
  {
    if a == [] {
      assert a + b == b;
    } else {
      assert (a + b)[1..] == a[1..] + b;
      RunAppend(lookup, a[1..], b, prompt);
    }
  }

  /** An unconfigured name is skipped without changing what happens to the names around it. */
  lemma SkipIsolated(reg: Registry, a: seq<string>, x: string, b: seq<string>, diff: string, files: seq<FileRecord>)
    requires x !in reg.adapters
    ensures ReviewPR(reg, a + [x] + b, diff, files)
         == (if a == [] then [] else ReviewPR(reg, a, diff, files)) + [Skipped(x)]
            + (if b == [] then [] else ReviewPR(reg, b, diff, files))
  {
    var lookup := n => OwnLookup(reg, n);
    var prompt := BuildReviewPrompt(diff, files);
    RunAppend(lookup, a + [x], b, prompt);
    RunAppend(lookup, a, [x], prompt);
  }

  // ---------------------------------------------------------------------------
  // Names inherited from Object.prototype
  // ---------------------------------------------------------------------------

  /** Both readings agree on every selection that names no inherited property. */
  lemma AsWrittenAgrees(reg: Registry, selected: seq<string>, diff: string, files: seq<FileRecord>)
    requires Valid(reg)
    requires forall k :: 0 <= k < |selected| ==> selected[k] !in InheritedNames
    ensures ReviewPRAsWritten(reg, selected, diff, files) == ReviewPR(reg, selected, diff, files)
  {
    var names := ProvidersToUse(reg, selected);
    var a := ReviewPRAsWritten(reg, selected, diff, files);
    var b := ReviewPR(reg, selected, diff, files);
    assert forall k :: 0 <= k < |names| ==> Lookup(reg, names[k]) == OwnLookup(reg, names[k]);
    assert |a| == |b| && forall k :: 0 <= k < |a| ==> a[k] == b[k];
  }

  /**
   As written, selecting `constructor` dispatches it: the lookup finds the inherited
   function, `reviewCode` is missing, and the name is reported as a failed review
   instead of being skipped as unconfigured.
   */
  lemma InheritedNameDispatched(reg: Registry, diff: string, files: seq<FileRecord>)
    requires Valid(reg)
    ensures ReviewPRAsWritten(reg, ["constructor"], diff, files) == [Failed("constructor")]
    ensures ReviewPR(reg, ["constructor"], diff, files) == [Skipped("constructor")]
  {
    assert "constructor" in InheritedNames;
    assert "constructor" !in reg.adapters;
  }

  /** Under Deno, `this.providers["__proto__"]` is `undefined` unless it is a key, so as written the name is skipped. */
  lemma ProtoNameSkipped(reg: Registry, diff: string, files: seq<FileRecord>)
    requires "__proto__" !in reg.adapters
    ensures ReviewPRAsWritten(reg, ["__proto__"], diff, files) == [Skipped("__proto__")]
  {
  }
}
