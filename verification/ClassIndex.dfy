/**
 The index of class names: appended by the agent as classes are transformed, read by the
 server as a list in which a class stands at the index its code was given.
 */
module ClassIndex {
  import opened Wrappers

  // ---------------------------------------------------------------- the agent

  // Whether the class is transformed at all, and where transforming it throws: before its
  // name is appended, or while the class file is written, after the index was advanced.
  datatype Outcome = NotTransformed | VisitThrows | WritingThrows | Transformed

  datatype Event = Event(className: string, outcome: Outcome)

  predicate Indexed(e: Event) {
    e.outcome.WritingThrows? || e.outcome.Transformed?
  }

  // The names in the order of their indices.
  function Names(events: seq<Event>): seq<string> {
    if events == [] then []
    else Names(events[..|events| - 1]) + if Indexed(events[|events| - 1]) then [events[|events| - 1].className] else []
  }

  function Quoted(name: string): string {
    ",\"" + name + "\""
  }

  function Appended(names: seq<string>): string {
    if names == [] then [] else Appended(names[..|names| - 1]) + Quoted(names[|names| - 1])
  }

  class CaptureFlowAndStateClassTransformer {
    var classIndex: nat
    // the file of class names
    var classes: string
    ghost var names: seq<string>

    ghost predicate Valid()
      reads this
    {
      classIndex == |names| && classes == Appended(names)
    }

    constructor ()
      ensures Valid() && names == []
    {
      classIndex, classes, names := 0, [], [];
    }

    method CaptureClassName(name: string)
      modifies this`classes
      ensures classes == old(classes) + Quoted(name)
    {
      classes := classes + (",\"" + name + "\"");
    }

    // The index the class was visited with, if it was, and whether the class was replaced.
    method Transform(e: Event) returns (usedIndex: Option<nat>, replaced: bool)
      requires Valid()
      modifies this
      ensures Valid()
      ensures names == if e.outcome == WritingThrows || e.outcome == Transformed then old(names) + [e.className] else old(names)
      ensures usedIndex == if e.outcome.NotTransformed? then None else Some(old(classIndex))
      ensures replaced <==> e.outcome.Transformed?
      ensures replaced ==> names[usedIndex.value] == e.className
    {
      if e.outcome.NotTransformed? {
        return None, false;
      }
      usedIndex, replaced := Some(classIndex), false;
      if e.outcome.VisitThrows? {
        return;
      }
      CaptureClassName(e.className);
      names := names + [e.className];
      assert names[..|names| - 1] == old(names);
      classIndex := classIndex + 1;
      replaced := e.outcome.Transformed?;
    }
  }

  /** Over any sequence of transformations, failed ones included, the next index is the number
      of names appended, and the file is those names in order. */
  method TransformAll(events: seq<Event>) returns (classIndex: nat, classes: string)
    ensures classIndex == |Names(events)| && classes == Appended(Names(events))
  {
    var t := new CaptureFlowAndStateClassTransformer();
    for k := 0 to |events|
      invariant fresh(t) && t.Valid() && t.names == Names(events[..k])
    {
      assert events[..k + 1][..k] == events[..k];
      var usedIndex, replaced := t.Transform(events[k]);
    }
    assert events[..|events|] == events;
    classIndex, classes := t.classIndex, t.classes;
  }

  // ---------------------------------------------------------------- the server

  datatype Read<T> = Read(value: T, rest: string)

  // The rest of a string after its opening quote. `escaped` gives the character a backslash
  // stands for together with the next one, if any.
  function ReadString(text: string, escaped: char -> Option<char>): (r: Option<Read<string>>)
    ensures r.Some? ==> |r.value.rest| + |r.value.value| < |text|
  {
    if text == [] then None
    else if text[0] == '"' then Some(Read([], text[1..]))
    else if text[0] == '\\' then
      if |text| < 2 || escaped(text[1]).None? then None
      else
        var others := ReadString(text[2..], escaped);
        if others.None? then None
        else Some(Read([escaped(text[1]).value] + others.value.value, others.value.rest))
    else
      var others := ReadString(text[1..], escaped);
      if others.None? then None else Some(Read([text[0]] + others.value.value, others.value.rest))
  }

  // A comma and another string as often as there is one, then the closing bracket.
  function ReadMore(text: string, escaped: char -> Option<char>): Option<Read<seq<string>>>
    decreases |text|
  {
    if text == [] then None
    else if text[0] == ']' then Some(Read([], text[1..]))
    else if |text| < 2 || text[0] != ',' || text[1] != '"' then None
    else
      var first := ReadString(text[2..], escaped);
      if first.None? then None
      else
        var others := ReadMore(first.value.rest, escaped);
        if others.None? then None else Some(Read([first.value.value] + others.value.value, others.value.rest))
  }

  // An array of strings and nothing after it, from behind the first opening quote.
  function ParseNames(text: string, escaped: char -> Option<char>): Option<seq<string>> {
    var first := ReadString(text, escaped);
    if first.None? then None
    else
      var others := ReadMore(first.value.rest, escaped);
      if others.None? || others.value.rest != [] then None else Some([first.value.value] + others.value.value)
  }

  function ParseArray(text: string, escaped: char -> Option<char>): Option<seq<string>> {
    if |text| >= 2 && text[0] == '[' && text[1] == '"' then ParseNames(text[2..], escaped)
    else if text == "[]" then Some([])
    else None
  }

  // Skips the first character and puts brackets around the rest.
  function ArrayedJson(classes: string): string {
    "[" + (if classes == [] then [] else classes[1..]) + "]"
  }

  predicate Plain(name: string) {
    '"' !in name && '\\' !in name
  }

  lemma {:induction false} PlainReads(name: string, rest: string, escaped: char -> Option<char>)
    requires Plain(name)
    ensures ReadString(name + "\"" + rest, escaped) == Some(Read(name, rest))
    decreases |name|
  {
    var text := name + "\"" + rest;
    if name != [] {
      assert text[1..] == name[1..] + "\"" + rest;
      PlainReads(name[1..], rest, escaped);
      assert [name[0]] + name[1..] == name;
    } else {
      assert text[1..] == rest;
    }
  }

  // Front to back.
  function AppendedForward(names: seq<string>): string {
    if names == [] then [] else Quoted(names[0]) + AppendedForward(names[1..])
  }

  lemma {:induction false} ForwardMore(names: seq<string>, name: string)
    ensures AppendedForward(names + [name]) == AppendedForward(names) + Quoted(name)
    decreases |names|
  {
    hide Quoted;
    if names == [] {
      assert (names + [name])[1..] == [];
    } else {
      assert (names + [name])[1..] == names[1..] + [name];
      ForwardMore(names[1..], name);
      var a, b, c := Quoted(names[0]), AppendedForward(names[1..]), Quoted(name);
      assert a + (b + c) == a + b + c;
    }
  }

  lemma {:induction false} ForwardIsAppended(names: seq<string>)
    ensures Appended(names) == AppendedForward(names)
    decreases |names|
  {
    if names != [] {
      ForwardIsAppended(names[..|names| - 1]);
      ForwardMore(names[..|names| - 1], names[|names| - 1]);
      assert names[..|names| - 1] + [names[|names| - 1]] == names;
    }
  }

  lemma {:induction false} MoreReads(names: seq<string>, escaped: char -> Option<char>)
    requires forall i :: 0 <= i < |names| ==> Plain(names[i])
    ensures ReadMore(AppendedForward(names) + "]", escaped) == Some(Read(names, []))
    decreases |names|
  {
    var text := AppendedForward(names) + "]";
    if names == [] {
      assert text == "]" && text[1..] == [];
    } else {
      var rest := AppendedForward(names[1..]) + "]";
      assert text[2..] == names[0] + "\"" + rest;
      PlainReads(names[0], rest, escaped);
      MoreReads(names[1..], escaped);
      assert [names[0]] + names[1..] == names;
    }
  }

  // What was read is no longer than what it was read from, and shorter if anything was escaped.
  lemma {:induction false} StringLength(text: string, escaped: char -> Option<char>)
    ensures ReadString(text, escaped).Some? ==>
              var r := ReadString(text, escaped).value;
              && |r.value| + |r.rest| + 1 <= |text|
              && (|r.value| + |r.rest| + 1 == |text| ==> Plain(r.value))
    decreases |text|
  {
    if text != [] && text[0] != '"' {
      if text[0] == '\\' {
        if |text| >= 2 { StringLength(text[2..], escaped); }
      } else {
        StringLength(text[1..], escaped);
      }
    }
  }

  function Lengths(names: seq<string>): nat {
    if names == [] then 0 else |names[0]| + 3 + Lengths(names[1..])
  }

  lemma {:induction false} MoreLength(text: string, escaped: char -> Option<char>)
    ensures ReadMore(text, escaped).Some? ==>
              var r := ReadMore(text, escaped).value;
              && Lengths(r.value) + |r.rest| + 1 <= |text|
              && (Lengths(r.value) + |r.rest| + 1 == |text| ==> forall i :: 0 <= i < |r.value| ==> Plain(r.value[i]))
    decreases |text|
  {
    hide Plain;
    if ReadMore(text, escaped).Some? && text[0] != ']' {
      StringLength(text[2..], escaped);
      var first := ReadString(text[2..], escaped).value;
      MoreLength(first.rest, escaped);
      var others := ReadMore(first.rest, escaped).value;
      assert ([first.value] + others.value)[1..] == others.value;
    }
  }

  lemma {:induction false} AppendedLength(names: seq<string>)
    ensures |AppendedForward(names)| == Lengths(names)
    decreases |names|
  {
    if names != [] {
      AppendedLength(names[1..]);
    }
  }

  // The text the server parses, from behind the first opening quote.
  function TextOfNames(names: seq<string>): string
    requires names != []
  {
    names[0] + "\"" + (AppendedForward(names[1..]) + "]")
  }

  lemma ArrayIsNames(names: seq<string>, escaped: char -> Option<char>)
    requires names != []
    ensures ParseArray(ArrayedJson(Appended(names)), escaped) == ParseNames(TextOfNames(names), escaped)
  {
    ForwardIsAppended(names);
    hide Appended;
    hide ParseNames;
    var rest := AppendedForward(names[1..]);
    assert Appended(names) == ",\"" + names[0] + "\"" + rest;
    hide AppendedForward;
    Bracketed(names[0], rest);
  }

  lemma Bracketed(name: string, rest: string)
    ensures var text := ArrayedJson(",\"" + name + "\"" + rest);
            |text| >= 2 && text[0] == '[' && text[1] == '"' && text[2..] == name + "\"" + (rest + "]")
  {
    var classes := ",\"" + name + "\"" + rest;
    assert classes[1..] == "\"" + name + "\"" + rest;
    assert ("[" + classes[1..] + "]")[2..] == name + "\"" + (rest + "]");
  }

  lemma PlainNamesRead(names: seq<string>, escaped: char -> Option<char>)
    requires names != [] && forall i :: 0 <= i < |names| ==> Plain(names[i])
    ensures ParseNames(TextOfNames(names), escaped) == Some(names)
  {
    PlainReads(names[0], AppendedForward(names[1..]) + "]", escaped);
    MoreReads(names[1..], escaped);
    hide AppendedForward;
    hide Plain;
    hide ReadString;
    hide ReadMore;
    assert [names[0]] + names[1..] == names;
  }

  lemma NamesReadArePlain(names: seq<string>, text: string, escaped: char -> Option<char>)
    requires names != [] && |text| == Lengths(names) - 1
    requires ParseNames(text, escaped) == Some(names)
    ensures forall i :: 0 <= i < |names| ==> Plain(names[i])
  {
    hide Plain;
    hide ReadString;
    hide ReadMore;
    StringLength(text, escaped);
    var first := ReadString(text, escaped).value;
    MoreLength(first.rest, escaped);
    var others := ReadMore(first.rest, escaped).value.value;
    assert ([first.value] + others)[1..] == others;
  }

  /** The server reads back the class names, each at its index, exactly when none of them
      holds a quote or a backslash. */
  lemma ClassIndexRoundTrip(names: seq<string>, escaped: char -> Option<char>)
    ensures ParseArray(ArrayedJson(Appended(names)), escaped) == Some(names)
            <==> forall i :: 0 <= i < |names| ==> Plain(names[i])
  {
    if names == [] {
      assert ArrayedJson(Appended(names)) == "[]";
    } else {
      ArrayIsNames(names, escaped);
      AppendedLength(names[1..]);
      assert |TextOfNames(names)| == Lengths(names) - 1;
      hide *;
      if forall i :: 0 <= i < |names| ==> Plain(names[i]) {
        PlainNamesRead(names, escaped);
      }
      if ParseNames(TextOfNames(names), escaped) == Some(names) {
        NamesReadArePlain(names, TextOfNames(names), escaped);
      }
    }
  }
}
