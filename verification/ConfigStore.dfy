/** service/config/config.c: saving and loading one configuration database, through any
    sequence of saves, power cuts and restarts. */
module ConfigStore {
  import opened ConfigFiles
  import opened Options

  /** The text that `cJSON_Parse` finds at the start of a file, if there is one. */
  type Parser = string -> Option<string>

  /** `body` is a text the service saves: it is found at the start of its file whole, not before
      all of it is written and whatever there is of the stamp, and the marker is in it only on
      the line of a key. */
  ghost predicate IsText(parse: Parser, body: string)
  {
    && (forall n :: 0 <= n < |body| ==> parse(body[..n]) == None)
    && (forall t: nat, n :: |body| <= n <= |Full(body, t)| ==> parse(Full(body, t)[..n]) == Some(body))
    && Shaped(body)
  }

  /** Any two shaped texts that do not start alike are texts of some parser. */
  lemma {:induction false} TextsExist(a: string, b: string)
    requires Shaped(a) && Shaped(b) && !(a <= b) && !(b <= a)
    ensures IsText(c => if a <= c then Some(a) else if b <= c then Some(b) else None, a)
    ensures IsText(c => if a <= c then Some(a) else if b <= c then Some(b) else None, b)
  {
    hide Shaped, Decimal;
  }

  /** `files` are the ones with suffix 0 and 1; `saveCount` is meaningful while the service is
      `up`. `clock` and `current` are history: the latest second of a save, and the text last
      loaded or saved whole, none for the default. */
  datatype State = State(files: seq<Option<string>>, saveCount: nat, up: bool, clock: nat, current: Option<string>)

  /** A save is cut short after `written` bytes; opening the file has emptied it. */
  datatype Event = Boot | PowerOff | Save(body: string, t: nat) | Cut(body: string, t: nat, written: nat)

  ghost predicate Init(s: State)
  {
    s.files == [None, None] && !s.up && s.clock == 0 && s.current == None
  }

  function Chosen(files: seq<Option<string>>): (c: Choice)
    requires |files| == 2
    ensures c.Numbered? ==> c.i < 2 && files[c.i].Some?
  {
    Select(StampOf(files[0]), StampOf(files[1]))
  }

  /** What a start loads, which files it leaves, and the next save count. */
  datatype Loaded = Loaded(text: Option<string>, files: seq<Option<string>>, count: nat)

  function Present(files: seq<Option<string>>): nat
    requires |files| == 2
  {
    (if files[0].Some? then 1 else 0) + (if files[1].Some? then 1 else 0)
  }

  /** `dbInit`: the chosen file, or the default; a chosen file without a text is deleted and the
      choice made again. The load counts one on from the suffix, 0 for the default's. */
  function Start(parse: Parser, files: seq<Option<string>>): (r: Loaded)
    requires |files| == 2
    ensures |r.files| == 2
    decreases Present(files)
  {
    match Chosen(files)
    case Plain => Loaded(None, files, 1)
    case Numbered(i) =>
      var text := parse(files[i].value);
      if text.Some? then Loaded(text, files, i + 1) else Start(parse, files[i := None])
  }

  /** One choice of a start. */
  lemma {:induction false} OneChoice(parse: Parser, files: seq<Option<string>>)
    requires |files| == 2
    ensures match Chosen(files)
            case Plain => Start(parse, files) == Loaded(None, files, 1)
            case Numbered(i) =>
              var text := parse(files[i].value);
              if text.Some? then Start(parse, files) == Loaded(text, files, i + 1)
              else Start(parse, files) == Start(parse, files[i := None]) && Present(files[i := None]) < Present(files)
  {
  }

  function Later(t: nat, clock: nat): nat
  {
    if t > clock then t else clock
  }

  ghost predicate Enabled(parse: Parser, s: State, e: Event)
    requires |s.files| == 2
  {
    match e
    case Boot => !s.up
    case PowerOff => s.up
    case Save(body, t) => s.up && IsText(parse, body) && t > 0
    case Cut(body, t, written) => s.up && IsText(parse, body) && t > 0 && written <= |Full(body, t)|
  }

  ghost predicate Step(parse: Parser, s: State, e: Event, s': State)
    requires |s.files| == 2
  {
    && Enabled(parse, s, e)
    && match e
       case Boot =>
         var r := Start(parse, s.files);
         s' == s.(files := r.files, up := true, saveCount := r.count, current := r.text)
       case PowerOff => s' == s.(up := false)
       case Save(body, t) =>
         s' == s.(files := s.files[s.saveCount % 2 := Some(Full(body, t))], saveCount := s.saveCount + 1,
                  clock := Later(t, s.clock), current := Some(body))
       case Cut(body, t, written) =>
         s' == s.(files := s.files[s.saveCount % 2 := Some(Full(body, t)[..written])], up := false,
                  clock := Later(t, s.clock))
  }

  ghost predicate IsRun(parse: Parser, es: seq<Event>, states: seq<State>)
  {
    && |states| == |es| + 1 && Init(states[0])
    && forall i :: 0 <= i < |es| ==> |states[i].files| == 2 && Step(parse, states[i], es[i], states[i + 1])
  }

  // ---- The invariant of regular runs ----

  /** Saves come in rising seconds, and none puts the stamp marker in its text. */
  predicate Regular(s: State, e: Event)
  {
    match e
    case Save(body, t) => !Contains(body, MARKER) && t > s.clock
    case Cut(body, t, written) => !Contains(Written(body, written), MARKER)
    case _ => true
  }

  ghost predicate AllRegular(es: seq<Event>, states: seq<State>, i: nat)
    requires i < |states| == |es| + 1
  {
    forall k :: 0 <= k < i ==> Regular(states[k], es[k])
  }

  /** Both stamps are numbers no later than the clock. */
  ghost predicate Readable(s: State)
  {
    |s.files| == 2 && forall i :: 0 <= i < 2 ==> StampOf(s.files[i]).Some? && 0 <= StampOf(s.files[i]).value <= s.clock
  }

  /** The chosen file holds `text` whole and is not the next to be written. */
  ghost predicate Keeps(parse: Parser, s: State, text: Option<string>)
    requires |s.files| == 2
  {
    match Chosen(s.files)
    case Plain => text == None && (s.up ==> s.saveCount % 2 == 1) && StampOf(s.files[0]) == StampOf(s.files[1]) == Some(0)
    case Numbered(i) => text.Some? && parse(s.files[i].value) == text && (s.up ==> s.saveCount % 2 == 1 - i)
  }

  /** What is kept is `current`, but for a save cut short after its whole text. */
  ghost predicate Inv(parse: Parser, s: State)
  {
    Readable(s) && (s.up ==> Keeps(parse, s, s.current)) && exists text :: Keeps(parse, s, text)
  }

  /** A start loads what is kept, and deletes nothing. */
  lemma {:induction false} KeptIsLoaded(parse: Parser, s: State, text: Option<string>)
    requires |s.files| == 2 && Keeps(parse, s, text)
    ensures Start(parse, s.files).text == text && Start(parse, s.files).files == s.files
    ensures Start(parse, s.files).count == (if Chosen(s.files).Numbered? then Chosen(s.files).i else 0) + 1
  {
  }

  /** Power cut anywhere in a save, with no marker written of its text: what a restart will
      choose is the text before the save or the text being saved, whole. */
  lemma {:induction false} CutKeeps(parse: Parser, s: State, body: string, t: nat, written: nat, s': State)
    requires Readable(s) && s.up && Keeps(parse, s, s.current) && Step(parse, s, Cut(body, t, written), s')
    requires !Contains(Written(body, written), MARKER)
    ensures Readable(s') && (Keeps(parse, s', s.current) || Keeps(parse, s', Some(body)))
    ensures written <= |body| + 1 + |MARKER| ==> Keeps(parse, s', s.current)
  {
    hide Stamp, Stamped, Contains, Shaped;
    StampOfPrefix(body, t, written);
    var target := s.saveCount % 2;
    assert StampOf(s'.files[1 - target]) == StampOf(s.files[1 - target]);
    LongerThanText(body, t);
  }

  lemma LongerThanText(body: string, t: nat)
    ensures |Full(body, t)| > |body| + 1 + |MARKER|
  {
  }

  /** A save that completes, later than all before it and with no marker in its text, is what a
      restart will choose. */
  lemma {:induction false} SaveKeeps(parse: Parser, s: State, body: string, t: nat, s': State)
    requires Readable(s) && s.up && Keeps(parse, s, s.current) && Step(parse, s, Save(body, t), s')
    requires !Contains(body, MARKER) && t > s.clock
    ensures Readable(s') && Keeps(parse, s', Some(body))
  {
    hide Stamp, Stamped, Contains, Shaped;
    StampIff(body, t);
    WholeParses(parse, body, t);
    var target := s.saveCount % 2;
    assert StampOf(s'.files[1 - target]) == StampOf(s.files[1 - target]);
  }

  lemma {:induction false} WholeParses(parse: Parser, body: string, t: nat)
    requires IsText(parse, body)
    ensures parse(Full(body, t)) == Some(body)
  {
    hide Full, Shaped;
    var f := Full(body, t);
    LongerThanText(body, t);
    assert f[..|f|] == f;
  }

  lemma {:induction false} StepKeeps(parse: Parser, s: State, e: Event, s': State)
    requires Inv(parse, s) && Step(parse, s, e, s') && Regular(s, e)
    ensures Inv(parse, s')
  {
    hide Keeps, IsText;
    match e
    case Boot =>
      var text :| Keeps(parse, s, text);
      KeptIsLoaded(parse, s, text);
      BootKeeps(parse, s, text, s');
    case PowerOff =>
      OffKeeps(parse, s, s');
    case Save(body, t) => SaveKeeps(parse, s, body, t, s');
    case Cut(body, t, written) => CutKeeps(parse, s, body, t, written, s');
  }

  lemma {:induction false} OffKeeps(parse: Parser, s: State, s': State)
    requires Readable(s) && Keeps(parse, s, s.current) && Step(parse, s, PowerOff, s')
    ensures Readable(s') && Keeps(parse, s', s.current)
  {
  }

  lemma {:induction false} SameFilesKeep(parse: Parser, s: State, text: Option<string>, s': State)
    requires Readable(s) && Keeps(parse, s, text) && s'.files == s.files && s'.clock == s.clock
    requires s'.saveCount == (if Chosen(s.files).Numbered? then Chosen(s.files).i else 0) + 1
    ensures Readable(s') && Keeps(parse, s', text)
  {
    hide StampOf, Select;
  }

  lemma {:induction false} BootKeeps(parse: Parser, s: State, text: Option<string>, s': State)
    requires Readable(s) && Keeps(parse, s, text) && Step(parse, s, Boot, s')
    ensures Readable(s') && Keeps(parse, s', s'.current)
  {
    assert |s.files| == 2;
    hide Keeps, Readable, Start, Chosen;
    KeptIsLoaded(parse, s, text);
    SameFilesKeep(parse, s, text, s');
  }

  lemma {:induction false} InitKeeps(parse: Parser, s: State)
    requires Init(s)
    ensures Inv(parse, s)
  {
    assert Keeps(parse, s, None);
  }

  lemma {:induction false} RunKeeps(parse: Parser, es: seq<Event>, states: seq<State>, i: nat)
    requires IsRun(parse, es, states) && i < |states| && AllRegular(es, states, i)
    ensures Inv(parse, states[i])
  {
    hide Inv, Init, Step, Regular;
    if i == 0 {
      InitKeeps(parse, states[0]);
    } else {
      RunKeeps(parse, es, states, i - 1);
      StepKeeps(parse, states[i - 1], es[i - 1], states[i]);
    }
  }

  // ---- What a restart finds ----

  /** In every regular run, whatever was cut short before, a restart finds a whole text, or the
      default if nothing was saved, at its first choice; while the service is up it would be the
      current text, and the next save writes the other file. */
  lemma {:induction false} RestartLoads(parse: Parser, es: seq<Event>, states: seq<State>, i: nat)
    requires IsRun(parse, es, states) && i < |states| && AllRegular(es, states, i)
    ensures |states[i].files| == 2 && Start(parse, states[i].files).files == states[i].files
    ensures states[i].up ==> Start(parse, states[i].files).text == states[i].current
    ensures states[i].up ==> Chosen(states[i].files) != Numbered(states[i].saveCount % 2)
  {
    RunKeeps(parse, es, states, i);
    var s := states[i];
    var text :| Keeps(parse, s, text);
    KeptIsLoaded(parse, s, text);
    if s.up {
      KeptIsLoaded(parse, s, s.current);
    }
  }

  /** Saves are atomic: if a save is cut short, the next restart loads the text that was
      current before it, or the text it was saving. */
  lemma {:induction false} CutIsAtomic(parse: Parser, es: seq<Event>, states: seq<State>, i: nat)
    requires IsRun(parse, es, states) && i + 1 < |es| && es[i].Cut? && es[i + 1] == Boot && AllRegular(es, states, i + 1)
    ensures states[i + 2].current == states[i].current || states[i + 2].current == Some(es[i].body)
    ensures es[i].written <= |es[i].body| + 1 + |MARKER| ==> states[i + 2].current == states[i].current
  {
    hide Keeps, Readable, Chosen, IsText;
    RunKeeps(parse, es, states, i);
    assert Regular(states[i], es[i]);
    CutKeeps(parse, states[i], es[i].body, es[i].t, es[i].written, states[i + 1]);
    if Keeps(parse, states[i + 1], states[i].current) {
      KeptIsLoaded(parse, states[i + 1], states[i].current);
    } else {
      KeptIsLoaded(parse, states[i + 1], Some(es[i].body));
    }
  }

  /** With nothing cut short, a restart loads what was last saved or loaded. */
  lemma {:induction false} SavedIsLoaded(parse: Parser, es: seq<Event>, states: seq<State>, i: nat)
    requires IsRun(parse, es, states) && i + 1 < |es| && es[i] == PowerOff && es[i + 1] == Boot && AllRegular(es, states, i)
    ensures states[i + 2].current == states[i].current
  {
    hide Keeps, Readable, Chosen, IsText;
    RunKeeps(parse, es, states, i);
    OffKeeps(parse, states[i], states[i + 1]);
    KeptIsLoaded(parse, states[i + 1], states[i].current);
  }

  // ---- Saves that are not regular ----

  /** The stamp of the file that a save does not write. */
  function OtherStamp(s: State): Option<int>
    requires |s.files| == 2
  {
    StampOf(s.files[1 - s.saveCount % 2])
  }

  /** The new stamp counts as the newer one. */
  predicate Newer(s: State, t: nat)
    requires |s.files| == 2 && OtherStamp(s).Some?
  {
    OtherStamp(s).value < t || (OtherStamp(s).value == t && s.saveCount % 2 == 0)
  }

  /** In any state, a completed save is what the script chooses exactly when its text has no
      marker and the other file a stamp that is a number and not newer, or when its text has
      the marker and the other file no stamp. Otherwise a marker makes it choose neither. */
  lemma {:induction false} SaveChosenIff(parse: Parser, s: State, body: string, t: nat, s': State)
    requires |s.files| == 2 && Step(parse, s, Save(body, t), s')
    ensures Chosen(s'.files) == Numbered(s.saveCount % 2) <==>
              if Contains(body, MARKER) then OtherStamp(s) == Some(0) else OtherStamp(s).Some? && Newer(s, t)
    ensures Contains(body, MARKER) && OtherStamp(s) != Some(0) ==> Chosen(s'.files) == Plain
  {
    hide Stamp, Full, Stamped, Contains, Shaped, BlankFields;
    StampIff(body, t);
    ShapedMarked(body);
    var target := s.saveCount % 2;
    assert StampOf(s'.files[1 - target]) == StampOf(s.files[1 - target]);
  }

  /** A save, power off and a restart after any regular run. With no marker in the text, the
      text saved is loaded exactly when its second counts as the newer one, and the text before
      it otherwise. With the marker, it is loaded exactly when the other file has no stamp;
      otherwise the default is, and everything saved before is lost. */
  lemma {:induction false} SavedIsLoadedIff(parse: Parser, es: seq<Event>, states: seq<State>, i: nat)
    requires IsRun(parse, es, states) && i + 2 < |es| && AllRegular(es, states, i)
    requires es[i].Save? && es[i + 1] == PowerOff && es[i + 2] == Boot
    ensures |states[i].files| == 2 && OtherStamp(states[i]).Some?
    ensures states[i + 3].current ==
              if Contains(es[i].body, MARKER) then if OtherStamp(states[i]) == Some(0) then Some(es[i].body) else None
              else if Newer(states[i], es[i].t) then Some(es[i].body)
              else states[i].current
  {
    hide Stamp, Full, Stamped, Contains, IsText;
    RunKeeps(parse, es, states, i);
    var s, s', target := states[i], states[i + 1], states[i].saveCount % 2;
    var body, t := es[i].body, es[i].t;
    SaveChosenIff(parse, s, body, t, s');
    WholeParses(parse, body, t);
    assert s'.files[target] == Some(Full(body, t)) && s'.files[1 - target] == s.files[1 - target];
    assert states[i + 2].files == s'.files;
    StampIff(body, t);
  }

  /** What a restart would load after a save cut short, after any regular run: what was current
      before or the text being saved, whole, exactly when what is written of that text has no
      marker or the other file no stamp. */
  lemma {:induction false} CutAtomicIff(parse: Parser, s: State, body: string, t: nat, written: nat, s': State)
    requires Readable(s) && s.up && Keeps(parse, s, s.current) && Step(parse, s, Cut(body, t, written), s')
    ensures |s'.files| == 2
    ensures Start(parse, s'.files).text in {s.current, Some(body)} <==>
              !Contains(Written(body, written), MARKER) || OtherStamp(s) == Some(0)
  {
    hide Stamp, Stamped, Contains, Shaped, Full;
    if !Contains(Written(body, written), MARKER) {
      CutKeeps(parse, s, body, t, written, s');
      if Keeps(parse, s', s.current) {
        KeptIsLoaded(parse, s', s.current);
      } else {
        KeptIsLoaded(parse, s', Some(body));
      }
    } else {
      MarkedCutStarts(parse, s, body, t, written, s');
    }
  }

  /** With the marker written, the file is chosen only beside one without a stamp, and then it
      is deleted unless its text is whole. */
  lemma {:induction false} MarkedCutStarts(parse: Parser, s: State, body: string, t: nat, written: nat, s': State)
    requires Readable(s) && s.up && Keeps(parse, s, s.current) && Step(parse, s, Cut(body, t, written), s')
    requires Contains(Written(body, written), MARKER)
    ensures |s'.files| == 2
    ensures OtherStamp(s) == Some(0) ==> s.current == None
    ensures OtherStamp(s) != Some(0) ==> s.current != None
    ensures Start(parse, s'.files).text == if OtherStamp(s) == Some(0) && written >= |body| then Some(body) else None
  {
    hide Stamp, Stamped, Contains, Shaped;
    var target := s.saveCount % 2;
    var f := s'.files;
    MarkedCutStamp(body, t, written);
    assert StampOf(f[target]) == None && StampOf(f[1 - target]) == OtherStamp(s);
    if OtherStamp(s) == Some(0) {
      assert Chosen(f) == Numbered(target);
      if written < |body| {
        assert Full(body, t)[..written] == body[..written];
        assert Chosen(f[target := None]) == Plain;
      }
    }
  }

  /** The same for runs: a save cut short at any byte, after any regular run, happened wholly or
      not at all exactly when what was written of its text has no marker or the other file no
      stamp. */
  lemma {:induction false} CutIsAtomicIff(parse: Parser, es: seq<Event>, states: seq<State>, i: nat)
    requires IsRun(parse, es, states) && i + 1 < |es| && AllRegular(es, states, i)
    requires es[i].Cut? && es[i + 1] == Boot
    ensures |states[i].files| == 2
    ensures states[i + 2].current in {states[i].current, Some(es[i].body)} <==>
              !Contains(Written(es[i].body, es[i].written), MARKER) || OtherStamp(states[i]) == Some(0)
  {
    hide Keeps, Readable, Chosen, IsText, Contains, OtherStamp;
    RunKeeps(parse, es, states, i);
    CutAtomicIff(parse, states[i], es[i].body, es[i].t, es[i].written, states[i + 1]);
  }

  /** So a text can be saved without fear of the power exactly when it has no marker: with one,
      some cut loses a text `before` that was saved earlier. */
  lemma {:induction false} SafeIff(parse: Parser, body: string, before: string)
    requires IsText(parse, body) && IsText(parse, before) && !Contains(before, MARKER)
    ensures (forall s, t, written, s' ::
               Readable(s) && s.up && Keeps(parse, s, s.current) && Step(parse, s, Cut(body, t, written), s') ==>
                 |s'.files| == 2 && Start(parse, s'.files).text in {s.current, Some(body)})
            <==> !Contains(body, MARKER)
  {
    hide Stamp, Stamped, Contains, Shaped, Full, IsText;
    if !Contains(body, MARKER) {
      forall s, t, written, s' |
        Readable(s) && s.up && Keeps(parse, s, s.current) && Step(parse, s, Cut(body, t, written), s')
        ensures |s'.files| == 2 && Start(parse, s'.files).text in {s.current, Some(body)}
      {
        if Contains(Written(body, written), MARKER) {
          ContainsFurther(Written(body, written), body);
        }
        CutAtomicIff(parse, s, body, t, written, s');
      }
    } else {
      var s := State([Some(Full(before, 1)), None], 1, true, 1, Some(before));
      var n := |Full(body, 1)|;
      var s' := s.(files := s.files[1 := Some(Full(body, 1)[..n])], up := false);
      StampIff(before, 1);
      WholeParses(parse, before, 1);
      assert Readable(s) && Keeps(parse, s, s.current);
      assert Step(parse, s, Cut(body, 1, n), s');
      LongerThanText(body, 1);
      assert Written(body, n) == body;
      CutAtomicIff(parse, s, body, 1, n, s');
    }
  }

  // ---- The service's own steps ----

  class Database {
    const parse: Parser
    /** The files with suffix 0 and 1. */
    var files: array<Option<string>>
    var saveCount: nat
    var revision: nat
    var dirty: nat
    var up: bool
    /** History. */
    var clock: nat
    var current: Option<string>

    ghost predicate Valid()
      reads this
    {
      files.Length == 2
    }

    ghost function View(): State
      reads this, files
    {
      State(files[..], saveCount, up, clock, current)
    }

    constructor (parse: Parser)
      ensures Valid() && Init(View()) && Inv(parse, View()) && dirty == 0 && fresh(files) && this.parse == parse
    {
      this.parse := parse;
      files := new Option<string>[2](_ => None);
      saveCount, revision, dirty, up, clock, current := 0, 0, 0, false, 0, None;
      new;
      assert files[..] == [None, None];
      InitKeeps(parse, View());
    }

    // ---- Starting and stopping ----

    /** `getValidDBFile`: what the script prints, and the suffix of that. */
    method GetValidDBFile() returns (choice: Choice)
      requires Valid()
      modifies this`saveCount
      ensures choice == Chosen(files[..])
      ensures saveCount == if choice.Numbered? then choice.i else 0
    {
      var t0, t1 := StampOf(files[0]), StampOf(files[1]);
      choice := Select(t0, t1);
      saveCount := 0;
      if choice.Numbered? {
        saveCount := choice.i;
      }
    }

    /** `dbInit` for this database, in a new process: loads the chosen file, or the default;
        a file that does not parse is deleted, and the next choice tried. */
    method Boot()
      requires Valid() && !up
      modifies this, files
      ensures Valid() && files == old(files) && dirty == 0 && revision == 0
      ensures Step(parse, old(View()), Event.Boot, View())
      ensures old(Inv(parse, View())) ==> Inv(parse, View())
    {
      hide Inv, Start, Chosen, Present;
      ghost var s := View();
      revision, dirty := 0, 0;
      while true
        invariant files == old(files) && files.Length == 2 && clock == s.clock && !up && dirty == 0 && revision == 0
        invariant Start(parse, files[..]) == Start(parse, s.files)
        decreases Present(files[..])
      {
        OneChoice(parse, files[..]);
        var choice := GetValidDBFile();
        current := None;
        if choice.Plain? {
          break;
        }
        current := parse(files[choice.i].value);
        if current.Some? {
          break;
        }
        ghost var was := files[..];
        files[choice.i] := None;
        assert files[..] == was[choice.i := None];
      }
      saveCount := saveCount + 1;
      up := true;
      if Inv(parse, s) {
        StepKeeps(parse, s, Event.Boot, View());
      }
    }

    method PowerOff()
      requires Valid() && up
      modifies this`up
      ensures Valid() && Step(parse, old(View()), Event.PowerOff, View())
      ensures old(Inv(parse, View())) ==> Inv(parse, View())
    {
      hide Inv;
      ghost var s := View();
      up := false;
      if Inv(parse, s) {
        StepKeeps(parse, s, Event.PowerOff, View());
      }
    }

    // ---- Saving ----

    /** `json_saveFile`: opens the file, which empties it, and writes byte by byte until done
        or the power goes. */
    method SaveFile(body: string, now: nat, count: nat, power: nat) returns (written: nat)
      requires files.Length == 2
      modifies files
      ensures written == if power < |Full(body, now)| then power else |Full(body, now)|
      ensures files[count % 2] == Some(Full(body, now)[..written])
      ensures files[1 - count % 2] == old(files[1 - count % 2])
    {
      var text := Full(body, now);
      var target := count % 2;
      files[target] := Some("");
      written := 0;
      while written < |text| && written < power
        invariant written <= |text| && written <= power
        invariant files[target] == Some(text[..written]) && files[1 - target] == old(files[1 - target])
      {
        files[target] := Some(files[target].value + [text[written]]);
        assert text[..written] + [text[written]] == text[..written + 1];
        written := written + 1;
      }
    }

    /** `configPut` for this database. */
    method Put()
      modifies this`revision, this`dirty
      ensures revision == old(revision) + 1 && dirty == old(dirty) + 1
    {
      revision := revision + 1;
      dirty := dirty + 1;
    }

    /** `dbSync` for this database: saves when dirty or forced; `power` is how many bytes can
        be written before the power goes. */
    method Sync(force: bool, body: string, now: nat, power: nat)
      requires Valid() && up && IsText(parse, body) && now > 0
      modifies this, files
      ensures files == old(files) && Valid()
      ensures old(dirty) == 0 && !force ==> View() == old(View()) && dirty == 0
      ensures (old(dirty) > 0 || force) && power >= |Full(body, now)| ==>
                Step(parse, old(View()), Save(body, now), View()) && dirty == 0
      ensures (old(dirty) > 0 || force) && power < |Full(body, now)| ==>
                Step(parse, old(View()), Cut(body, now, power), View()) && dirty == old(dirty)
      ensures old(dirty) > 0 || force ==>
                var n := if power < |Full(body, now)| then power else |Full(body, now)|;
                && files[old(saveCount) % 2] == Some(Full(body, now)[..n])
                && files[1 - old(saveCount) % 2] == old(files[1 - saveCount % 2])
                && (up <==> n == |Full(body, now)|) && saveCount == old(saveCount) + (if up then 1 else 0)
      ensures old(Inv(parse, View())) && !Contains(body, MARKER) && now > old(clock) ==> Inv(parse, View())
    {
      hide Inv, Full, Contains, IsText;
      if dirty > 0 || force {
        ghost var s := View();
        var written := SaveFile(body, now, saveCount, power);
        clock := Later(now, clock);
        if power < |Full(body, now)| {
          up := false;
          assert View().files == s.files[s.saveCount % 2 := Some(Full(body, now)[..power])];
          if Inv(parse, s) && !Contains(body, MARKER) {
            if Contains(Written(body, power), MARKER) {
              ContainsFurther(Written(body, power), body);
            }
            StepKeeps(parse, s, Cut(body, now, power), View());
          }
          return;
        }
        assert Full(body, now)[..written] == Full(body, now);
        saveCount := saveCount + 1;
        dirty := 0;
        current := Some(body);
        assert View().files == s.files[s.saveCount % 2 := Some(Full(body, now))];
        if Inv(parse, s) && !Contains(body, MARKER) && now > s.clock {
          StepKeeps(parse, s, Save(body, now), View());
        }
      }
    }
  }
}
