/** `responder_texto`: a free-text message is lower-cased and stripped, then
    classified by a first-match chain (greeting, known place, forecast,
    weather, menu, generated fallback) and answered. */
module Routing {
  import opened Optional
  import opened Text
  import opened Places
  import opened Menus

  const Greetings: seq<string> :=
    ["hola", "buenas", "buen día", "buen dia", "buenas tardes", "buenas noches", "qué tal", "hey", "hi", "holis"]
  const MenuWords: seq<string> := ["menu", "menú", "inicio", "volver", "empezar", "principal"]
  const WeatherWords: seq<string> :=
    ["tiempo", "frio", "calor", "lluvia", "nieve", "clima", "temperatura", "hoy"]
  const ForecastWords: seq<string> :=
    ["pronóstico", "previsión", "mañana", "tarde", "noche", "va a llover", "lloverá", "tormenta"]

  /** The sentence appended to every generated answer. */
  const Disclaimer: string :=
    "\n\nNota: esta descripción es orientativa. Para datos exactos consultá fuentes oficiales."

  /** What a free-text message is taken to ask for. */
  datatype Intent =
    | Greeting
    | PlaceFound(clave: string, info: Record)
    | Forecast
    | Weather
    | MenuRequest
    | Fallback(pregunta: string)

  /** The keyword chain reached when the text is neither a greeting nor a
      place: forecast words first, then weather words, then menu words. */
  function KeywordIntent(pregunta: string): Intent {
    if AnyIn(ForecastWords, pregunta) then Forecast
    else if AnyIn(WeatherWords, pregunta) then Weather
    else if AnyIn(MenuWords, pregunta) then MenuRequest
    else Fallback(pregunta)
  }

  /** The routing of `responder_texto` on `pregunta`, the lower-cased and
      stripped text. A lookup hit whose record is an empty dict is false in
      Python and does not count as a place. */
  function Route(kb: KnowledgeBase, ratio: Ratio, pregunta: string): Intent {
    if AnyIn(Greetings, pregunta) then Greeting
    else PlaceOrKeywords(Lookup(kb, ratio, pregunta), pregunta)
  }

  /** `pregunta = text.lower().strip()`, then the routing. */
  function Classify(kb: KnowledgeBase, ratio: Ratio, text: string): Intent {
    Route(kb, ratio, Normalize(text))
  }

  /** `if info:` on the lookup's answer, else the keyword chain. */
  function PlaceOrKeywords(hit: Option<Entry>, pregunta: string): Intent {
    if hit.Some? && !hit.value.1.IsEmpty() then PlaceFound(hit.value.0, hit.value.1)
    else KeywordIntent(pregunta)
  }

  // ---------------------------------------------------------------------
  // The place reply

  /** A text field is shown only when present and non-empty (Python truth). */
  predicate Shown(field: Option<string>) {
    field.Some? && field.value != ""
  }

  /** The parts of the place reply, in the order they are appended. */
  datatype Line =
    | Header(title: string, description: string)
    | HowToGet(url: string)
    | Hours(hours: string)
    | Activities(items: seq<string>)

  /** Position of each kind of line in the reply. */
  function Rank(l: Line): nat {
    match l
    case Header(_, _) => 0
    case HowToGet(_) => 1
    case Hours(_) => 2
    case Activities(_) => 3
  }

  /** The lines of the reply for `(clave, info)`: the title (`nombre`, else
      `clave.title()`) and description (default "") always; then the way to
      get there, the hours and the activities, each only when set. */
  function PlaceLines(clave: string, info: Record): seq<Line> {
    [Header(info.nombre.GetOr(Title(clave)), info.descripcion.GetOr(""))]
    + (if Shown(info.comoLlegar) then [HowToGet(info.comoLlegar.value)] else [])
    + (if Shown(info.horarios) then [Hours(info.horarios.value)] else [])
    + (if info.actividades.Some? && info.actividades.value != []
       then [Activities(info.actividades.value)] else [])
  }

  function RenderLine(l: Line): string {
    match l
    case Header(title, description) => "📍 *" + title + "*\n" + description + "\n\n"
    case HowToGet(url) => "🚗 *Cómo llegar:* [Abrir en Google Maps](" + url + ")\n"
    case Hours(hours) => "🕘 *Horarios:* " + hours + "\n"
    case Activities(items) => "🎯 *Actividades:* " + Join(items, ", ") + "\n"
  }

  function RenderLines(lines: seq<Line>): string {
    if lines == [] then "" else RenderLine(lines[0]) + RenderLines(lines[1..])
  }

  /** The Markdown text `responder_texto` builds for a place. */
  function PlaceText(clave: string, info: Record): string {
    RenderLines(PlaceLines(clave, info))
  }

  /** The rendered text is the rendered lines one after another. */
  lemma {:induction false} RenderLinesAppend(a: seq<Line>, b: seq<Line>)
    ensures RenderLines(a + b) == RenderLines(a) + RenderLines(b)
  {
    if a == [] {
      assert a + b == b;
    } else {
      assert (a + b)[1..] == a[1..] + b;
      RenderLinesAppend(a[1..], b);
    }
  }
  /** The reply as `responder_texto` builds it: the header, then one
      `texto +=` per optional line that is set. */
  method BuildPlaceText(clave: string, info: Record) returns (texto: string)
    ensures texto == PlaceText(clave, info)
  {
    var lines := [Header(info.nombre.GetOr(Title(clave)), info.descripcion.GetOr(""))];
    texto := RenderLine(lines[0]);
    assert texto == RenderLines(lines);
    if Shown(info.comoLlegar) {
      texto, lines := AppendLine(texto, lines, HowToGet(info.comoLlegar.value));
    }
    if Shown(info.horarios) {
      texto, lines := AppendLine(texto, lines, Hours(info.horarios.value));
    }
    if info.actividades.Some? && info.actividades.value != [] {
      texto, lines := AppendLine(texto, lines, Activities(info.actividades.value));
    }
    assert lines == PlaceLines(clave, info);
  }

  /** One `texto +=` step: the text stays the rendering of the lines so far. */
  method AppendLine(texto: string, lines: seq<Line>, l: Line) returns (texto': string, lines': seq<Line>)
    requires texto == RenderLines(lines)
    ensures lines' == lines + [l] && texto' == RenderLines(lines')
  {
    RenderLinesAppend(lines, [l]);
    texto' := texto + RenderLine(l);
    lines' := lines + [l];
  }

  // ---------------------------------------------------------------------
  // Answers

  /** The messages sent for an intent. Every answer other than a greeting or
      a menu request is followed by the quick menu. */
  function Compose(svc: Services, intent: Intent): seq<Message> {
    match intent
    case Greeting => [MainMenuMessage()]
    case PlaceFound(clave, info) => [Message(PlaceText(clave, info), None, true), QuickMenuMessage()]
    case Forecast => [Message(svc.pronostico, None, false), QuickMenuMessage()]
    case Weather => [Message(svc.clima, None, false), QuickMenuMessage()]
    case MenuRequest => [MainMenuMessage()]
    case Fallback(pregunta) =>
      [Message(svc.enriquecer(pregunta) + Disclaimer, None, false), QuickMenuMessage()]
  }

  /** `responder_texto(update)`: the messages sent in reply to `text`. */
  function Respond(kb: KnowledgeBase, ratio: Ratio, svc: Services, text: string): seq<Message> {
    Compose(svc, Classify(kb, ratio, text))
  }
}

/** What the routing and the composed answers promise. */
module RoutingFacts {
  import opened Optional
  import opened Text
  import opened Places
  import opened PlacesFacts
  import opened Menus
  import opened Routing

  /** The lookup found a record that is not an empty dict. */
  predicate FindsPlace(kb: KnowledgeBase, ratio: Ratio, pregunta: string) {
    Lookup(kb, ratio, pregunta).Some? && !Lookup(kb, ratio, pregunta).value.1.IsEmpty()
  }

  /** Routing is total and ordered: each message takes exactly the first
      branch whose test succeeds, in the order greeting, place, forecast,
      weather, menu, fallback. */
  lemma RouteFirstMatch(kb: KnowledgeBase, ratio: Ratio, p: string)
    ensures var c := Route(kb, ratio, p);
      && (c == Greeting <==> AnyIn(Greetings, p))
      && (c.PlaceFound? <==> !AnyIn(Greetings, p) && FindsPlace(kb, ratio, p))
      && (c == Forecast <==>
            !AnyIn(Greetings, p) && !FindsPlace(kb, ratio, p) && AnyIn(ForecastWords, p))
      && (c == Weather <==>
            !AnyIn(Greetings, p) && !FindsPlace(kb, ratio, p) && !AnyIn(ForecastWords, p)
            && AnyIn(WeatherWords, p))
      && (c == MenuRequest <==>
            !AnyIn(Greetings, p) && !FindsPlace(kb, ratio, p) && !AnyIn(ForecastWords, p)
            && !AnyIn(WeatherWords, p) && AnyIn(MenuWords, p))
      && (c.Fallback? <==>
            !AnyIn(Greetings, p) && !FindsPlace(kb, ratio, p) && !AnyIn(ForecastWords, p)
            && !AnyIn(WeatherWords, p) && !AnyIn(MenuWords, p))
  {
  }

  /** A found place is reported with the record the knowledge base holds
      under that key, and that record is not empty. */
  lemma PlaceIntentIsLookup(kb: KnowledgeBase, ratio: Ratio, p: string)
    requires Route(kb, ratio, p).PlaceFound?
    ensures var c := Route(kb, ratio, p);
      && Lookup(kb, ratio, p) == Some((c.clave, c.info))
      && (c.clave, c.info) in kb && c.info == ValueOf(kb, c.clave) && !c.info.IsEmpty()
  {
  }

  /** A lookup hit whose record is an empty dict is no match: routing goes on
      to the keyword checks as if nothing had been found. */
  lemma EmptyRecordFallsThrough(kb: KnowledgeBase, ratio: Ratio, p: string)
    requires !AnyIn(Greetings, p)
    requires Lookup(kb, ratio, p).Some? && Lookup(kb, ratio, p).value.1.IsEmpty()
    ensures Route(kb, ratio, p) == KeywordIntent(p)
  {
  }

  /** Greeting words are tested by substring before anything else, so any
      text holding the letters "hi" (say "chile") is a greeting, whatever
      places are known. */
  lemma HiAnywhereGreets(kb: KnowledgeBase, ratio: Ratio, p: string)
    requires Contains("hi", p)
    ensures Route(kb, ratio, p) == Greeting
  {
    assert Greetings[8] == "hi";
  }

  /** "Buenas tardes" normalises to "buenas tardes", which holds the forecast
      word "tarde" but is routed as a greeting. */
  lemma GoodAfternoonIsGreeting(kb: KnowledgeBase, ratio: Ratio)
    ensures AnyIn(ForecastWords, Normalize("Buenas tardes"))
    ensures Classify(kb, ratio, "Buenas tardes") == Greeting
  {
    GoodAfternoonNormal();
    GoodAfternoonWords();
    GreetingWins(kb, ratio, "buenas tardes");
  }

  /** A text holding a greeting word is a greeting, whatever else it holds. */
  lemma GreetingWins(kb: KnowledgeBase, ratio: Ratio, p: string)
    requires AnyIn(Greetings, p)
    ensures Route(kb, ratio, p) == Greeting
  {
  }

  lemma GoodAfternoonNormal()
    ensures Normalize("Buenas tardes") == "buenas tardes"
  {
    GoodAfternoonLower();
    NormalizesTo("Buenas tardes", "buenas tardes");
  }

  lemma GoodAfternoonLower()
    ensures Lower("Buenas tardes") == "buenas tardes"
  {
  }

  /** "buenas tardes" holds both the greeting "buenas" and the forecast word
      "tarde". */
  lemma GoodAfternoonWords()
    ensures AnyIn(Greetings, "buenas tardes") && AnyIn(ForecastWords, "buenas tardes")
  {
    var p := "buenas tardes";
    assert OccursAt(Greetings[1], p, 0);
    assert Contains(Greetings[1], p);
    assert OccursAt(ForecastWords[3], p, 7);
    assert Contains(ForecastWords[3], p);
  }

  /** The normal form of a text with nothing to strip is its lower-casing. */
  lemma NormalizesTo(text: string, p: string)
    requires Lower(text) == p && (p == [] || (!IsSpace(p[0]) && !IsSpace(p[|p| - 1])))
    ensures Normalize(text) == p
  {
    StripUnpadded(p);
  }

  /** "va a llover mañana" is a forecast request (with no places known): it
      greets nobody, and "mañana" is tested before the weather words. */
  lemma RainTomorrowIsForecast(ratio: Ratio)
    ensures Classify([], ratio, "va a llover mañana") == Forecast
  {
    var p := "va a llover mañana";
    RainTomorrowText();
    TomorrowIsForecast(ratio, p);
  }

  /** The text is already normal, greets nobody and says "mañana". */
  lemma RainTomorrowText()
    ensures var p := "va a llover mañana";
      Normalize(p) == p && !AnyIn(Greetings, p) && Contains("mañana", p)
  {
    RainTomorrowNormal();
    RainTomorrowNoGreeting();
    RainTomorrowMentions();
  }

  lemma RainTomorrowNormal()
    ensures Normalize("va a llover mañana") == "va a llover mañana"
  {
    RainTomorrowLower();
    NormalizesTo("va a llover mañana", "va a llover mañana");
  }

  lemma RainTomorrowNoGreeting()
    ensures !AnyIn(Greetings, "va a llover mañana")
  {
    RainTomorrowLetters();
    NoGreetingWithout("va a llover mañana");
  }

  lemma RainTomorrowMentions()
    ensures Contains("mañana", "va a llover mañana")
  {
    assert OccursAt("mañana", "va a llover mañana", 12);
  }

  lemma RainTomorrowLower()
    ensures Lower("va a llover mañana") == "va a llover mañana"
  {
  }

  lemma RainTomorrowLetters()
    ensures var p := "va a llover mañana"; 'h' !in p && 'b' !in p && 'q' !in p
  {
  }

  /** Any text that mentions "mañana" and is no greeting is a forecast
      request when no places are known. */
  lemma TomorrowIsForecast(ratio: Ratio, p: string)
    requires !AnyIn(Greetings, p) && Contains("mañana", p)
    ensures Route([], ratio, p) == Forecast
  {
    MentionsForecastWord(p);
    EmptyKnowledgeBaseMisses(ratio, p);
  }

  /** For any knowledge base: a text that greets nobody, names no known
      place and mentions "mañana" is a forecast request. */
  lemma TomorrowIsForecastWithoutPlace(kb: KnowledgeBase, ratio: Ratio, p: string)
    requires !AnyIn(Greetings, p) && !FindsPlace(kb, ratio, p) && Contains("mañana", p)
    ensures Route(kb, ratio, p) == Forecast
  {
    MentionsForecastWord(p);
    assert PlaceOrKeywords(Lookup(kb, ratio, p), p) == KeywordIntent(p);
  }

  lemma MentionsForecastWord(p: string)
    requires Contains("mañana", p)
    ensures AnyIn(ForecastWords, p)
  {
    assert Contains(ForecastWords[2], p);
  }

  /** Every greeting word holds an 'h', a 'b' or a 'q': a text with none of
      these letters is no greeting. */
  lemma NoGreetingWithout(p: string)
    requires 'h' !in p && 'b' !in p && 'q' !in p
    ensures !AnyIn(Greetings, p)
  {
    forall k | 0 <= k < |Greetings| ensures !Contains(Greetings[k], p) {
      var w := Greetings[k];
      var c := if w == "qué tal" then 'q' else if w[0] == 'b' then 'b' else 'h';
      assert c in w;
      if Contains(w, p) { ContainsChar(w, p, c); }
    }
  }

  /** With no places file every message is routed by keywords alone. */
  lemma EmptyKnowledgeBaseNeverFindsPlace(ratio: Ratio, p: string)
    ensures Route([], ratio, p) == if AnyIn(Greetings, p) then Greeting else KeywordIntent(p)
  {
    EmptyKnowledgeBaseMisses(ratio, p);
  }

  /** Routing a text and routing its normalised form agree: the router has
      no state, and normalising twice changes nothing. */
  lemma ClassifyOfNormalized(kb: KnowledgeBase, ratio: Ratio, text: string)
    ensures Classify(kb, ratio, Normalize(text)) == Classify(kb, ratio, text)
  {
    NormalizeIdempotent(text);
  }

  /** The generated answer is asked about the normalised message. */
  lemma FallbackAsksNormalizedText(kb: KnowledgeBase, ratio: Ratio, p: string)
    requires Route(kb, ratio, p).Fallback?
    ensures Route(kb, ratio, p).pregunta == p
  {
    if !AnyIn(Greetings, p) {
      var hit := Lookup(kb, ratio, p);
      if !(hit.Some? && !hit.value.1.IsEmpty()) {
        assert Route(kb, ratio, p) == KeywordIntent(p);
      }
    }
  }

  // ---------------------------------------------------------------------
  // The answers

  /** Greetings and menu requests get the welcome text with the main menu;
      every other answer is one message without keyboard followed by the
      quick menu, whose only button goes back to the main menu. */
  lemma QuickMenuAfterEveryAnswer(svc: Services, intent: Intent)
    ensures var r := Compose(svc, intent);
      if intent == Greeting || intent == MenuRequest then
        r == [MainMenuMessage()] && Payloads(r[0].keyboard.value) == MainMenuPayloads
      else
        |r| == 2 && r[0].keyboard == None && r[1] == QuickMenuMessage()
        && Payloads(r[1].keyboard.value) == ["menu_principal"]
  {
  }

  /** The fallback answer is the generated text followed by the fixed note;
      weather and forecast answers are the service's text verbatim. */
  lemma AnswerTexts(svc: Services, intent: Intent)
    ensures intent.Fallback? ==>
      var ai := svc.enriquecer(intent.pregunta); var t := Compose(svc, intent)[0].text;
      ai <= t && t[|ai|..] == Disclaimer
    ensures intent == Weather ==> Compose(svc, intent)[0].text == svc.clima
    ensures intent == Forecast ==> Compose(svc, intent)[0].text == svc.pronostico
  {
    if intent.Fallback? {
      var ai := svc.enriquecer(intent.pregunta);
      assert (ai + Disclaimer)[|ai|..] == Disclaimer;
    }
  }

  // ---------------------------------------------------------------------
  // The place reply

  /** The reply opens with the title and description: `nombre`, else the
      key title-cased; the description defaults to "". */
  lemma PlaceReplyHeader(clave: string, info: Record)
    ensures var lines := PlaceLines(clave, info);
      && lines != []
      && lines[0].Header?
      && lines[0].title == (if info.nombre.Some? then info.nombre.value else Title(clave))
      && lines[0].description == (if info.descripcion.Some? then info.descripcion.value else "")
  {
  }

  /** Each optional line appears exactly when its field is set and non-empty,
      carrying that field's value. */
  lemma PlaceReplyOptionalLines(clave: string, info: Record, l: Line)
    ensures l.HowToGet? ==> (l in PlaceLines(clave, info) <==> info.comoLlegar == Some(l.url) && l.url != "")
    ensures l.Hours? ==> (l in PlaceLines(clave, info) <==> info.horarios == Some(l.hours) && l.hours != "")
    ensures l.Activities? ==>
      (l in PlaceLines(clave, info) <==> info.actividades == Some(l.items) && l.items != [])
  {
  }

  /** The lines come in a fixed order: header, way to get there, hours,
      activities, each at most once. */
  lemma {:induction false} PlaceReplyOrdered(clave: string, info: Record)
    ensures var lines := PlaceLines(clave, info);
      && |lines| <= 4
      && forall i, j :: 0 <= i < j < |lines| ==> Rank(lines[i]) < Rank(lines[j])
  {
  }

  /** When `nombre` is missing, the title is the key with only the case of
      its letters changed (for an ASCII key). */
  lemma NamelessTitleIsKey(clave: string, info: Record)
    requires info.nombre.None? && IsAscii(clave)
    ensures var title := PlaceLines(clave, info)[0].title;
      |title| == |clave| && Lower(title) == Lower(clave)
  {
    TitleOnlyChangesCase(clave, false);
  }

  /** Every activity is listed in the activities line. */
  lemma ActivitiesListed(items: seq<string>, k: nat)
    requires k < |items|
    ensures Contains(items[k], RenderLine(Activities(items)))
  {
    var joined := Join(items, ", ");
    JoinContainsItems(items, ", ", k);
    var line := RenderLine(Activities(items));
    var prefix := "🎯 *Actividades:* ";
    assert line == prefix + joined + "\n";
    assert line[|prefix|..|prefix| + |joined|] == joined;
    assert OccursAt(joined, line, |prefix|);
    ContainsTransitive(items[k], joined, line);
  }

}
