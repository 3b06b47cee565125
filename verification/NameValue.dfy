/** Name/value replies: the callbacks of upnpreplyparse.c and lookup in the list they build. */
module NameValues {
  import opened Text
  import opened MiniXml
  import opened XmlTree

  datatype NameValue = NameValue(name: string, value: string)

  /** struct NameValueParserData; `list` is the linked list from l_head on. */
  datatype State = State(list: seq<NameValue>, curelt: string, portListing: Option<string>, topelt: bool,
                         cdata: Option<string>)

  const PORT_LISTING: string := "NewPortListing"

  function AtStart(st: State, name: string): State {
    st.(topelt := true, curelt := Clip(name, 63), cdata := None)
  }

  function AtEnd(st: State): State {
    if !st.topelt then st
    else
      var value := if st.cdata.Some? then Clip(st.cdata.value, 127) else "";
      var list := if st.curelt != PORT_LISTING then [NameValue(st.curelt, value)] + st.list else st.list;
      st.(list := list, cdata := None, topelt := false)
  }

  function AtData(st: State, text: string): State {
    if st.curelt == PORT_LISTING then st.(portListing := Some(text)) else st.(cdata := Some(text))
  }

  // The dispatch of one callback; no attribute callback is installed.
  function Handle(st: State, c: Callback): State {
    match c
    case OnStart(name) => AtStart(st, name)
    case OnAtt(_, _) => st
    case OnData(text) => AtData(st, text)
    case OnEnd(_) => AtEnd(st)
  }

  function HandleAll(st: State, cs: seq<Callback>): State {
    Fold(Handle, st, cs)
  }

  // ParseNameValue resets these two fields and leaves the others as it found them.
  function Reset(st: State): State {
    st.(list := [], portListing := None)
  }

  class ParserData {
    var list: seq<NameValue>
    var curelt: string
    var portListing: Option<string>
    var topelt: bool
    var cdata: Option<string>

    function Value(): State
      reads this
    {
      State(list, curelt, portListing, topelt, cdata)
    }

    method NameValueParserStartElt(name: string)
      modifies this
      ensures Value() == AtStart(old(Value()), name)
    {
      topelt := true;
      curelt := Clip(name, 63);
      cdata := None;
    }

    method NameValueParserEndElt()
      modifies this
      ensures Value() == AtEnd(old(Value()))
    {
      if !topelt { return; }
      if curelt != PORT_LISTING {
        var nv := NameValue(curelt, "");
        if cdata.Some? {
          nv := nv.(value := Clip(cdata.value, 127));
        }
        list := [nv] + list;
      }
      cdata := None;
      topelt := false;
    }

    method NameValueParserGetData(text: string)
      modifies this
      ensures Value() == AtData(old(Value()), text)
    {
      if curelt == PORT_LISTING {
        portListing := Some(text);
      } else {
        cdata := Some(text);
      }
    }

    /** ParseNameValue */
    method Parse(mem: string, size: nat)
      modifies this
      ensures Value() == HandleAll(Reset(old(Value())), Parsed(mem, size))
    {
      list, portListing := [], None;
      var events := ParseXml(mem, size);
      ghost var cs := Parsed(mem, size);
      var i := 0;
      while i < |events|
        invariant 0 <= i <= |events|
        invariant HandleAll(Value(), ReadAll(mem, events[i..])) == HandleAll(Reset(old(Value())), cs)
      {
        var c := Read(mem, events[i]);
        ghost var before := Value();
        match c {
          case OnStart(name) => NameValueParserStartElt(name);
          case OnAtt(_, _) =>
          case OnData(text) => NameValueParserGetData(text);
          case OnEnd(_) => NameValueParserEndElt();
        }
        assert Value() == Handle(before, c);
        assert ReadAll(mem, events[i..])[1..] == ReadAll(mem, events[i + 1..]);
        i := i + 1;
      }
    }

    /** GetValueFromNameValueList: the value of the first entry with that name. */
    method GetValue(name: string) returns (r: Option<string>)
      ensures r == Lookup(list, name)
    {
      var i := 0;
      while i < |list|
        invariant 0 <= i <= |list|
        invariant Lookup(list, name) == Lookup(list[i..], name)
      {
        if list[i].name == name {
          return Some(list[i].value);
        }
        i := i + 1;
      }
      return None;
    }
  }

  function Lookup(list: seq<NameValue>, name: string): (r: Option<string>)
    ensures r.None? <==> forall k | 0 <= k < |list| :: list[k].name != name
    ensures r.Some? ==> exists k :: 0 <= k < |list| && list[k] == NameValue(name, r.value) &&
                                    forall j | 0 <= j < k :: list[j].name != name
  {
    if list == [] then None
    else if list[0].name == name then
      assert list[0] == NameValue(name, list[0].value);
      Some(list[0].value)
    else
      var r := Lookup(list[1..], name);
      assert r.Some? ==>
        var k :| 0 <= k < |list[1..]| && list[1..][k] == NameValue(name, r.value) &&
                 forall j | 0 <= j < k :: list[1..][j].name != name;
        list[k + 1] == NameValue(name, r.value) && forall j | 0 <= j < k + 1 :: list[j].name != name;
      assert r.None? ==> forall k | 0 < k < |list| :: list[k] == list[1..][k - 1];
      r
  }
}
