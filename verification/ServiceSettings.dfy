/** The setters and getters of a service that live on its packed variables
    (src/service.c): tags, args, fds and triggers, with the flags derived from them.
  */
module ServiceSettings {
  import opened Common
  import opened Strseg
  import opened ServiceVars

  const DEFAULT_FDS: string := "null\tnull\tnull"

  // What a setter receives, and whether it counts as "unset".
  function TextOf(seg: Segment): string { if seg.Done? then "" else seg.chars }

  // The triggers that are looked at: those before the first empty one.
  function Effective(tokens: seq<string>): seq<string> {
    if tokens == [] || tokens[0] == "" then [] else [tokens[0]] + Effective(tokens[1..])
  }

  ghost predicate Understood(triggers: seq<string>, sigNum: string -> int) {
    forall i :: 0 <= i < |triggers| ==> triggers[i] == "always" || sigNum(triggers[i]) > 0
  }

  function SignalsOf(triggers: seq<string>, sigNum: string -> int): set<int> {
    set i | 0 <= i < |triggers| && triggers[i] != "always" :: sigNum(triggers[i])
  }

  class Service {
    const vars: Vars
    var usesControlEvent: bool
    var usesControlCmd: bool
    var usesControlSocket: bool
    var autoRestart: bool
    var autostartSignals: set<int>
    var sigwake: bool
    ghost var clean: bool        // no value with a NUL has been stored

    ghost function Settings(): map<string, string>
      reads vars
    {
      AsMap(vars.tokens)
    }

    ghost function Setting(name: string, unset: string): string
      reads vars
    {
      if name in Settings() then Settings()[name] else unset
    }

    ghost predicate FlagsFor(fds: string)
      reads this`usesControlEvent, this`usesControlCmd, this`usesControlSocket
    {
      && usesControlEvent == ("control.event" in Fields(fds, '\t'))
      && usesControlCmd == ("control.cmd" in Fields(fds, '\t'))
      && usesControlSocket == ("control.socket" in Fields(fds, '\t'))
    }

    // The control flags say which control handles the current fds name.
    ghost predicate Valid()
      reads this, vars, vars.buf
    {
      vars.Valid() && (clean ==> Wf(vars.tokens) && FlagsFor(Setting("fds", DEFAULT_FDS)))
    }

    constructor (pooled: bool, capacity: nat)
      ensures Valid() && clean && Settings() == map[] && fresh(vars) && fresh(vars.buf)
      ensures vars.tokens == [] && vars.pooled == pooled && vars.buf.Length == capacity && vars.grants == []
      ensures !autoRestart && autostartSignals == {} && !sigwake
    {
      vars := new Vars(pooled, capacity);
      usesControlEvent, usesControlCmd, usesControlSocket := false, false, false;
      autoRestart, autostartSignals, sigwake := false, {}, false;
      clean := true;
      new;
      hide *;
      FreshIsValid();
    }

    lemma FreshIsValid()
      requires vars.Valid() && vars.tokens == [] && !usesControlEvent && !usesControlCmd && !usesControlSocket
      ensures Valid() && Settings() == map[]
    {
      hide Fields, Pack;
      NoControlByDefault();
    }

    // svc_get_tags, svc_get_argv, svc_get_triggers (unset == "") and svc_get_fds
    method Get(name: string, unset: string) returns (text: string)
      requires Valid()
      ensures text == Setting(name, unset)
    {
      hide Fields, AsMap, Pack, Wf, Lookup;
      var v := vars.GetVar(name);
      return if v.Some? then v.value else unset;
    }

    ghost predicate Stored(was: seq<string>, name: string, stored: Option<string>, ok: bool)
      reads vars
    {
      vars.tokens == if ok then Set(was, name, stored) else was
    }

    // How a text is stored: the empty one by removing the variable.
    function Form(text: string): Option<string> { if text == "" then None else Some(text) }

    // The store behind every setter: the empty text is stored by removing the variable.
    method Store(name: string, text: string, stored: Option<string>) returns (ok: bool)
      requires vars.Valid() && WfName(name) && (stored.Some? ==> stored.value == text)
      requires (stored.None? ==> NUL !in text)
      requires clean ==> Wf(vars.tokens)
      modifies this`clean, vars, vars.buf
      ensures vars.Valid() && (clean ==> Wf(vars.tokens)) && Stored(old(vars.tokens), name, stored, ok)
      ensures vars.Decided(old(vars.tokens), old(vars.buf.Length), old(vars.grants), name, stored, ok)
      ensures clean == (old(clean) && (ok ==> NUL !in text))
      ensures ok && stored.Some? ==> name in Settings() && (Settings()[name] == text <==> NUL !in text)
      ensures ok && clean && stored.Some? ==> Settings() == old(Settings())[name := text]
      ensures ok && clean && stored.None? ==> Settings() == old(Settings()) - {name}
      ensures !ok ==> Settings() == old(Settings())
      ensures stored.None? ==> ok
    {
      hide Fields, AsMap, Pack, Wf, Set, Lookup;
      ok := vars.SetVar(name, stored);
      if ok && stored.Some? {
        ReadBack(old(vars.tokens), name, text);
        ReadBackExactly(old(vars.tokens), name, text);
        LookupIsMap(vars.tokens, name);
      }
      if ok && NUL in text {
        clean := false;
      }
    }

    // svc_set_tags and svc_set_argv
    method SetText(name: string, seg: Segment) returns (ok: bool)
      requires Valid() && name in {"tags", "args"}
      modifies this`clean, vars, vars.buf
      ensures Valid() && clean == (old(clean) && (ok ==> NUL !in TextOf(seg)))
      ensures Stored(old(vars.tokens), name, Form(TextOf(seg)), ok) && (TextOf(seg) == "" ==> ok)
      ensures vars.Decided(old(vars.tokens), old(vars.buf.Length), old(vars.grants), name, Form(TextOf(seg)), ok)
      ensures ok && old(clean) ==> (Setting(name, "") == TextOf(seg) <==> NUL !in TextOf(seg))
      ensures ok && clean ==>
        forall other, unset :: other != name ==> Setting(other, unset) == old(Setting(other, unset))
      ensures !ok ==> Settings() == old(Settings())
    {
      hide Fields, AsMap, Pack, Wf, FlagsFor;
      ok := Store(name, TextOf(seg), Form(TextOf(seg)));
    }

    // svc_set_fds
    method SetFds(seg: Segment) returns (ok: bool)
      requires Valid()
      modifies this`usesControlEvent, this`usesControlCmd, this`usesControlSocket, this`clean, vars, vars.buf
      ensures Valid() && clean == (old(clean) && (ok ==> NUL !in TextOf(seg)))
      ensures ok ==> FlagsFor(TextOf(seg))
      ensures var form := if TextOf(seg) == DEFAULT_FDS then None else Some(TextOf(seg));
        && Stored(old(vars.tokens), "fds", form, ok) && (form.None? ==> ok)
        && vars.Decided(old(vars.tokens), old(vars.buf.Length), old(vars.grants), "fds", form, ok)
      ensures ok && old(clean) ==> (Setting("fds", DEFAULT_FDS) == TextOf(seg) <==> NUL !in TextOf(seg))
      ensures ok && clean ==>
        forall other, unset :: other != "fds" ==> Setting(other, unset) == old(Setting(other, unset))
      ensures !ok ==> Settings() == old(Settings()) && unchanged(this)
    {
      hide Fields, AsMap, Pack, Cmp, Wf, Set, Vars.Decided;
      var newFds := TextOf(seg);
      var c := Compare(newFds, DEFAULT_FDS);
      CmpEqual(newFds, DEFAULT_FDS);
      if c == 0 {
        DefaultHasNoNul();
        var _ := Store("fds", newFds, None);
      } else {
        ok := Store("fds", newFds, Some(newFds));
        if !ok {
          return;
        }
      }
      usesControlEvent, usesControlCmd, usesControlSocket := HasTokens(newFds);
      return true;
    }

    // svc_set_triggers, up to the decision whether to start the service now.
    method SetTriggers(seg: Segment, sigNum: string -> int) returns (ok: bool)
      requires Valid()
      modifies this`autoRestart, this`autostartSignals, this`sigwake, this`clean, vars, vars.buf
      ensures Valid() && clean == (old(clean) && (ok ==> NUL !in TextOf(seg)))
      ensures ok ==> Understood(Effective(RemainingFields(seg, '\t')), sigNum)
      ensures Stored(old(vars.tokens), "triggers", Form(TextOf(seg)), ok)
      ensures Understood(Effective(RemainingFields(seg, '\t')), sigNum) ==>
        && vars.Decided(old(vars.tokens), old(vars.buf.Length), old(vars.grants), "triggers", Form(TextOf(seg)), ok)
        && (TextOf(seg) == "" ==> ok)
      ensures ok && old(clean) ==> (Setting("triggers", "") == TextOf(seg) <==> NUL !in TextOf(seg))
      ensures ok && clean ==>
        forall other, unset :: other != "triggers" ==> Setting(other, unset) == old(Setting(other, unset))
      ensures ok ==> autoRestart == ("always" in Effective(RemainingFields(seg, '\t')))
      ensures ok ==> autostartSignals == SignalsOf(Effective(RemainingFields(seg, '\t')), sigNum)
      ensures ok ==> sigwake == (autostartSignals != {})
      ensures !ok ==> Settings() == old(Settings()) && unchanged(this)
      ensures !ok ==> vars.grants == old(vars.grants) || Understood(Effective(RemainingFields(seg, '\t')), sigNum)
    {
      hide Set, Vars.Decided;
      hide Fields, AsMap, Effective, Understood, SignalsOf, RemainingFields, Pack, Wf, FlagsFor;
      var understood, autostart, sigs, enable := ParseTriggers(seg, sigNum);
      if !understood {
        return false;
      }
      ok := Store("triggers", TextOf(seg), Form(TextOf(seg)));
      if !ok {
        return;
      }
      autoRestart, autostartSignals, sigwake := autostart, sigs, enable;
    }
  }

  lemma DefaultHasNoNul()
    ensures NUL !in DEFAULT_FDS
  {
  }

  lemma DefaultFields()
    ensures Fields(DEFAULT_FDS, '\t') == ["null", "null", "null"]
  {
    hide Fields;
    FieldsHead(DEFAULT_FDS, '\t', 4);
    assert DEFAULT_FDS[5..] == "null\tnull" && DEFAULT_FDS[..4] == "null";
    FieldsHead("null\tnull", '\t', 4);
    assert "null\tnull"[5..] == "null" && "null\tnull"[..4] == "null";
    FieldsHead("null", '\t', 4);
  }

  lemma NoControlByDefault()
    ensures "control.event" !in Fields(DEFAULT_FDS, '\t') && "control.cmd" !in Fields(DEFAULT_FDS, '\t')
    ensures "control.socket" !in Fields(DEFAULT_FDS, '\t')
  {
    hide Fields;
    DefaultFields();
    var f := Fields(DEFAULT_FDS, '\t');
    assert forall i :: 0 <= i < |f| ==> |f[i]| == 4;
  }

  // The token loop of svc_set_fds.
  method HasTokens(text: string) returns (event: bool, cmd: bool, socket: bool)
    ensures event == ("control.event" in Fields(text, '\t'))
    ensures cmd == ("control.cmd" in Fields(text, '\t'))
    ensures socket == ("control.socket" in Fields(text, '\t'))
  {
    event, cmd, socket := false, false, false;
    var found, token, rest := NextToken(Text(text), '\t');
    ghost var seen := [];
    while found
      invariant found ==> Fields(text, '\t') == seen + [token] + RemainingFields(rest, '\t')
      invariant !found ==> Fields(text, '\t') == seen
      invariant event == ("control.event" in seen)
      invariant cmd == ("control.cmd" in seen)
      invariant socket == ("control.socket" in seen)
      decreases found, if rest.Text? then |rest.chars| + 1 else 0
    {
      if token == "control.event" { event := true; }
      if token == "control.cmd" { cmd := true; }
      if token == "control.socket" { socket := true; }
      ghost var was := seen;
      seen := seen + [token];
      ghost var left := RemainingFields(rest, '\t');
      found, token, rest := NextToken(rest, '\t');
      assert found ==>
        (was + [seen[|was|]]) + ([token] + RemainingFields(rest, '\t')) == seen + [token] + RemainingFields(rest, '\t');
    }
  }

  // The token loop of svc_set_triggers.
  method ParseTriggers(seg: Segment, sigNum: string -> int)
    returns (ok: bool, autostart: bool, sigs: set<int>, enable: bool)
    ensures ok == Understood(Effective(RemainingFields(seg, '\t')), sigNum)
    ensures ok ==> autostart == ("always" in Effective(RemainingFields(seg, '\t')))
    ensures ok ==> sigs == SignalsOf(Effective(RemainingFields(seg, '\t')), sigNum)
    ensures ok ==> enable == (sigs != {})
  {
    hide Fields, SignalsOf, Understood, Effective;
    autostart, sigs, enable := false, {}, false;
    ghost var all := Effective(RemainingFields(seg, '\t'));
    ghost var seen, pending := [], RemainingFields(seg, '\t');
    TriggersEmpty(sigNum);
    var found, token, rest := NextToken(seg, '\t');
    while found && |token| > 0
      invariant all == seen + Effective(pending)
      invariant pending == if found then [token] + RemainingFields(rest, '\t') else []
      invariant Understood(seen, sigNum) && autostart == ("always" in seen)
      invariant sigs == SignalsOf(seen, sigNum) && enable == (sigs != {})
      decreases found, if rest.Text? then |rest.chars| + 1 else 0
    {
      ghost var more := Effective(RemainingFields(rest, '\t'));
      EffectiveStep(token, RemainingFields(rest, '\t'));
      TriggersStep(seen, token, more, sigNum);
      if token == "always" {
        autostart := true;
      } else {
        var signum := sigNum(token);
        if signum > 0 {
          sigs := sigs + {signum};
          enable := true;
        } else {
          return false, autostart, sigs, enable;
        }
      }
      seen, pending := seen + [token], RemainingFields(rest, '\t');
      found, token, rest := NextToken(rest, '\t');
    }
    if found { EffectiveStep(token, RemainingFields(rest, '\t')); }
    assert all == seen;
    return true, autostart, sigs, enable;
  }

  lemma TriggersEmpty(sigNum: string -> int)
    ensures SignalsOf([], sigNum) == {} && Understood([], sigNum) && Effective([]) == []
  {
  }

  lemma TriggersStep(seen: seq<string>, token: string, more: seq<string>, sigNum: string -> int)
    requires Understood(seen, sigNum)
    ensures seen + ([token] + more) == (seen + [token]) + more
    ensures token == "always" || sigNum(token) > 0 ==> Understood(seen + [token], sigNum)
    ensures token != "always" && sigNum(token) <= 0 ==> !Understood(seen + ([token] + more), sigNum)
    ensures SignalsOf(seen + [token], sigNum) == SignalsOf(seen, sigNum) +
      if token == "always" then {} else {sigNum(token)}
  {
    assert (seen + ([token] + more))[|seen|] == token;
    SignalsStep(seen, token, sigNum);
  }

  lemma EffectiveStep(token: string, rest: seq<string>)
    ensures Effective([token] + rest) == if token == "" then [] else [token] + Effective(rest)
  {
    assert ([token] + rest)[1..] == rest;
  }

  lemma SignalsStep(seen: seq<string>, token: string, sigNum: string -> int)
    ensures SignalsOf(seen + [token], sigNum) == SignalsOf(seen, sigNum) +
      if token == "always" then {} else {sigNum(token)}
  {
    var s := seen + [token];
    forall x | x in SignalsOf(seen, sigNum) ensures x in SignalsOf(s, sigNum) {
      var i :| 0 <= i < |seen| && seen[i] != "always" && sigNum(seen[i]) == x;
      assert s[i] == seen[i];
    }
    assert s[|seen|] == token;
  }
}
