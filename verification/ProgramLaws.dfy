/** Which targets, actions and paths of a program are valid, read off their texts. */
module ProgramLaws {
  import opened Options
  import opened Strings
  import opened Decimal
  import opened TextLaws
  import opened Programs

  /** The target itself, or a target around it. */
  ghost predicate Around(outer: Target, t: Target)
    decreases t
  {
    outer == t || (t.scope.Some? && Around(outer, t.scope.value))
  }

  /** One of the six texts that identify a target. */
  ghost predicate Identifies(t: Target, text: string) {
    || t.role == Some(text) || t.accessibleName == Some(text) || t.labelText == Some(text) || t.testId == Some(text)
    || t.componentHint == Some(text) || t.fallbackCss == Some(text)
  }

  /** Inside its white space the text begins with two slashes or mentions XPath in any case. */
  ghost predicate SmellsOfXPath(text: string) {
    exists low :: Spells(text, low) && (Begins(low, "//") || Holds(low, "xpath"))
  }

  lemma XPathExactlyWhen(text: string)
    ensures LooksLikeXPath(text) <==> SmellsOfXPath(text)
  {
    var v := Lower(Trim(text));
    ContainsExactlyWhen(v, "xpath");
    StartsWithExactlyWhen(v, "//");
    SpellsExactlyWhen(text, v);
    hide Lower, Trim, Contains, Spells, Holds, Begins;
    forall low | Spells(text, low) ensures low == v {
      SpellsExactlyWhen(text, low);
    }
  }

  lemma IdentitiesAre(t: Target, text: string)
    ensures |Identities(t)| == 6
    ensures Identifies(t, text) <==> exists i :: 0 <= i < 6 && Identities(t)[i] == Some(text)
  {
    var all := Identities(t);
    assert all[0] == t.role && all[1] == t.accessibleName && all[2] == t.labelText;
    assert all[3] == t.testId && all[4] == t.componentHint && all[5] == t.fallbackCss;
  }

  ghost predicate Speaks(t: Target) {
    && (exists text :: Identifies(t, text) && !AllSpace(text))
    && (forall text :: Identifies(t, text) ==> !SmellsOfXPath(text))
  }

  lemma SpeaksExactlyWhen(t: Target)
    ensures Speaks(t) <==>
              && (exists i :: 0 <= i < 6 && Identities(t)[i].Some? && Trim(Identities(t)[i].value) != "")
              && (forall i :: 0 <= i < 6 && Identities(t)[i].Some? ==> !LooksLikeXPath(Identities(t)[i].value))
  {
    IdentitiesAre(t, "");
    hide Identities, Identifies, AllSpace, SmellsOfXPath, LooksLikeXPath, Trim;
    forall text ensures Identifies(t, text) <==> exists i :: 0 <= i < 6 && Identities(t)[i] == Some(text) {
      IdentitiesAre(t, text);
    }
    forall text ensures LooksLikeXPath(text) <==> SmellsOfXPath(text) {
      XPathExactlyWhen(text);
    }
    forall text ensures Trim(text) == "" <==> AllSpace(text) {
      TrimsToNothing(text);
    }
    forall i | 0 <= i < 6 && Identities(t)[i].Some? ensures Identifies(t, Identities(t)[i].value) {
      IdentitiesAre(t, Identities(t)[i].value);
    }
  }

  lemma TrimsToNothing(text: string)
    ensures Trim(text) == "" <==> AllSpace(text)
  {
    TrimExactlyWhen(text, "");
    if AllSpace(text) {
      assert IsTrimmed(text, text, "", "");
    }
    if before, after :| IsTrimmed(text, before, "", after) {
      assert text == before + after;
    }
  }

  /** A target is valid exactly when it and every target around it has a printing text and none is an XPath. */
  lemma {:induction false} TargetIsValidExactlyWhen(t: Target)
    ensures ValidTarget(t) <==> forall outer :: Around(outer, t) ==> Speaks(outer)
    decreases t
  {
    SpeaksExactlyWhen(t);
    hide Speaks, LooksLikeXPath, Identities, Trim;
    if t.scope.Some? {
      TargetIsValidExactlyWhen(t.scope.value);
    }
    assert Around(t, t);
  }

  // ----- actions -----

  /** The action points at the target. */
  ghost predicate PointsAt(a: TestAction, t: Target) {
    || ((a.Activate? || a.Fill? || a.Select? || a.Hover? || a.Scroll? || a.Drag? || a.Upload? || a.Download?
         || a.Popup?)
        && a.target == t)
    || (a.Drag? && a.to == t)
    || (a.Press? && a.focus == Some(t))
    || (a.Wait? && a.condition == Visible(t))
  }

  /** A text the action cannot do without. */
  ghost predicate Needs(a: TestAction, text: string) {
    || ((a.Navigate? || a.SwitchTab?) && a.route == text) || (a.Wait? && a.condition == Url(text))
    || ((a.Press? || a.SetFeatureFlag?) && a.key == text) || (a.InjectFault? && a.fault == text)
    || (a.ApiCall? && a.operation == text) || (a.Upload? && a.fixture == text)
  }

  /** The text is one plain name: no slash of either kind and no two dots in a row. */
  ghost predicate PlainName(text: string) {
    (forall c :: c in text ==> c != '/' && c != '\\') && !Holds(text, "..")
  }

  /** An action is valid exactly when its targets are, what it needs is there and its fixture is plain. */
  lemma ActionIsValidExactlyWhen(a: TestAction)
    ensures ValidAction(a) <==>
              && (forall t :: PointsAt(a, t) ==> ValidTarget(t))
              && !Needs(a, "")
              && (a.Upload? ==> PlainName(a.fixture))
  {
    hide ValidTarget, Contains, Holds;
    if a.Upload? {
      ContainsExactlyWhen(a.fixture, "..");
    }
    NeedsExactlyWhen(a);
    PointsExactlyWhen(a);
    hide PointsAt, Needs;
  }

  lemma NeedsExactlyWhen(a: TestAction)
    ensures !Needs(a, "") <==>
              match a
              case Navigate(route) => route != ""
              case SwitchTab(route) => route != ""
              case Wait(Url(route)) => route != ""
              case Press(_, key) => key != ""
              case SetFeatureFlag(key, _) => key != ""
              case InjectFault(fault) => fault != ""
              case ApiCall(operation, _) => operation != ""
              case Upload(_, fixture) => fixture != ""
              case _ => true
  {
  }

  lemma PointsExactlyWhen(a: TestAction)
    ensures (forall t :: PointsAt(a, t) ==> ValidTarget(t)) <==>
              match a
              case Navigate(_) => true
              case SwitchTab(_) => true
              case SetFeatureFlag(_, _) => true
              case InjectFault(_) => true
              case ApiCall(_, _) => true
              case Assert(_) => true
              case Wait(Url(_)) => true
              case Wait(Visible(t)) => ValidTarget(t)
              case Press(focus, _) => focus.Some? ==> ValidTarget(focus.value)
              case Drag(t, to) => ValidTarget(t) && ValidTarget(to)
              case _ => ValidTarget(a.target)
  {
    hide ValidTarget;
    if a.Drag? {
      assert PointsAt(a, a.target) && PointsAt(a, a.to);
    } else if a.Press? {
      assert a.focus.Some? ==> PointsAt(a, a.focus.value);
    } else if a.Wait? {
      assert a.condition.Visible? ==> PointsAt(a, a.condition.target);
    } else if !(a.Navigate? || a.SwitchTab? || a.SetFeatureFlag? || a.InjectFault? || a.ApiCall? || a.Assert?) {
      assert PointsAt(a, a.target);
    }
  }

  // ----- the registry -----

  /** The file name is one step of a path: something, neither dot nor double dot, without a slash. */
  lemma FilenameExactlyWhen(name: string)
    ensures ValidFilename(name) <==>
              |name| > 0 && (forall c :: c in name ==> c != '/') && !(|name| <= 2 && forall c :: c in name ==> c == '.')
  {
    if |name| == 1 {
      assert name == [name[0]] && name[0] in name;
    }
    if |name| == 2 {
      assert name == [name[0], name[1]] && name[0] in name && name[1] in name;
    }
    assert '/' in name <==> exists c :: c in name && c == '/';
  }

  /** A step is registered exactly when what it names is declared, and its file is a small one with a plain name. */
  lemma RegisteredExactlyWhen(a: TestAction, p: TestProgram)
    requires ValidAction(a)
    ensures Registered(a, p) <==>
              && (a.Assert? ==> a.obligation in p.obligations)
              && (a.InjectFault? ==> a.fault in p.faults.Keys)
              && (a.ApiCall? ==> a.operation in p.apiOperations.Keys && a.input in p.data.Keys)
              && (a.Upload? ==> exists file, bytes :: (a.fixture, FileFixture(file, bytes)) in p.data.Items
                                                      && ValidFilename(file) && bytes <= 65536)
  {
    hide ValidFilename;
  }

  /** A fault names some address, a status of three digits and a delay of up to half a minute. */
  lemma FaultIsValidExactlyWhen(f: FaultSpec)
    ensures ValidFault(f) <==>
              && !AllSpace(f.url)
              && (f.HttpResponse? ==> f.status / 100 in {1, 2, 3, 4, 5})
              && (f.Delay? ==> f.delayMs != 0 && f.delayMs <= 30 * 1000)
  {
    TrimsToNothing(f.url);
    hide AllSpace, Trim;
  }
}
