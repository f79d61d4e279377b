/** Inline keyboards and the button handlers: `build_main_menu`, the quick
    "back to the menu" keyboard, `manejar_botones` (a button press) and
    `manejar_botones_fake` (the `/lugares` command). */
module Menus {
  import opened Optional

  /** An `InlineKeyboardButton(text, callback_data=payload)`. */
  datatype Button = Button(text: string, payload: string)

  /** Rows of buttons, as given to `InlineKeyboardMarkup`. */
  type Keyboard = seq<seq<Button>>

  /** One `reply_text` call: the text, the keyboard if any, and whether
      `parse_mode="Markdown"` was passed. */
  datatype Message = Message(text: string, keyboard: Option<Keyboard>, markdown: bool)

  /** The outside services whose answers are shown verbatim: the current
      weather text (`consultar_clima()`), the forecast text
      (`consultar_pronostico()`) and the generated description
      (`enriquecer_con_ia`). Each already turns its own failures into text. */
  datatype Services = Services(clima: string, pronostico: string, enriquecer: string -> string)

  /** The callback payloads of the keyboard rows, row by row. */
  function Payloads(k: Keyboard): seq<string> {
    if k == [] then []
    else seq(|k[0]|, i requires 0 <= i < |k[0]| => k[0][i].payload) + Payloads(k[1..])
  }

  /** Number of buttons on the keyboard. */
  function ButtonCount(k: Keyboard): nat {
    if k == [] then 0 else |k[0]| + ButtonCount(k[1..])
  }

  // ---------------------------------------------------------------------
  // Keyboards

  const MainMenuPayloads: seq<string> := ["lugares", "clima", "pronostico", "ayuda"]

  /** `build_main_menu()`: places; weather and forecast side by side; help. */
  function MainMenu(): (k: Keyboard)
    ensures |k| == 3 && |k[0]| == 1 && |k[1]| == 2 && |k[2]| == 1
    ensures ButtonCount(k) == 4
    ensures Payloads(k) == MainMenuPayloads
  {
    [ [Button("🏔 Lugares", "lugares")],
      [Button("☀️ Clima", "clima"), Button("📅 Pronóstico", "pronostico")],
      [Button("ℹ️ Ayuda", "ayuda")] ]
  }

  /** The one-button keyboard that `mostrar_menu_rapido` and
      `mostrar_menu_rapido_from_query` attach. */
  function QuickMenu(): (k: Keyboard)
    ensures |k| == 1 && |k[0]| == 1 && ButtonCount(k) == 1
    ensures Payloads(k) == ["menu_principal"]
  {
    [[Button("🏠 Volver al menú", "menu_principal")]]
  }

  const CategoryPayloads: seq<string> :=
    ["lug_naturaleza", "lug_bodegas", "lug_compras", "lug_cultura", "lug_montana", "lug_aventura"]

  /** The six category rows, one button each. */
  function CategoryRows(): (k: Keyboard)
    ensures |k| == 6 && ButtonCount(k) == 6
    ensures Payloads(k) == CategoryPayloads
  {
    [ [Button("🌿 Naturaleza", "lug_naturaleza")],
      [Button("🍇 Bodegas", "lug_bodegas")],
      [Button("🛍 Compras", "lug_compras")],
      [Button("🏛 Cultura", "lug_cultura")],
      [Button("⛰ Alta montaña", "lug_montana")],
      [Button("🎢 Aventura", "lug_aventura")] ]
  }

  /** The categories keyboard of a `lugares` button press: the six category
      rows and a last row back to the main menu. */
  function PlacesMenu(): (k: Keyboard)
    ensures |k| == 7 && ButtonCount(k) == 7
    ensures forall i :: 0 <= i < 7 ==> |k[i]| == 1
    ensures Payloads(k) == CategoryPayloads + ["menu_principal"]
  {
    var rows := CategoryRows();
    var k := rows + [[Button("🏠 Menú principal", "menu_principal")]];
    PayloadsAppend(rows, [[Button("🏠 Menú principal", "menu_principal")]]);
    k
  }

  lemma {:induction false} PayloadsAppend(k: Keyboard, l: Keyboard)
    ensures Payloads(k + l) == Payloads(k) + Payloads(l)
    ensures ButtonCount(k + l) == ButtonCount(k) + ButtonCount(l)
  {
    if k == [] {
      assert k + l == l;
    } else {
      assert (k + l)[0] == k[0];
      assert (k + l)[1..] == k[1..] + l;
      PayloadsAppend(k[1..], l);
    }
  }

  /** The categories keyboard of the `/lugares` command: the same six rows,
      without the row back to the main menu. */
  function PlacesCommandMenu(): (k: Keyboard)
    ensures k == PlacesMenu()[..6]
    ensures ButtonCount(k) == 6
    ensures Payloads(k) == CategoryPayloads
  {
    CategoryRows()
  }

  // ---------------------------------------------------------------------
  // Messages

  const WelcomeText: string := "👋 ¡Hola! Soy *Pandito*, tu guía virtual de Mendoza. Elegí una opción:"
  const MoreHelpText: string := "¿Te puedo ayudar con algo más? 🤔"
  const OtherCategoryText: string := "¿Querés ver otra categoría? 😊"
  const ChooseCategoryText: string := "Elegí una categoría de lugares:"
  const ExpiredText: string := "⏳ Ese botón expiró. Te muestro el menú de nuevo:"
  const HelpText: string := "Podés pedirme cosas como:\n- Qué lugares visitar\n- Qué comer típico\n- Cómo está el clima\n- Recomendaciones de bodegas"
  const NotRecognizedText: string := "Opción no reconocida 🙂"

  /** `enviar_menu_principal`: the welcome text with the main menu. */
  function MainMenuMessage(): Message {
    Message(WelcomeText, Some(MainMenu()), true)
  }

  /** `mostrar_menu_rapido`: offered after an answer to free text. */
  function QuickMenuMessage(): Message {
    Message(MoreHelpText, Some(QuickMenu()), false)
  }

  /** `mostrar_menu_rapido_from_query`: offered after an answer to a button. */
  function QuickMenuFromQueryMessage(): Message {
    Message(OtherCategoryText, Some(QuickMenu()), false)
  }

  /** The static texts of the six categories. */
  const NatureText: string :=
    "🌿 *Naturaleza en Mendoza:*\n- Parque General San Martín\n- Reserva Divisadero Largo\n- Chacras de Coria\n- Lago del Parque Central\n\n✏️ *Escribí el nombre del lugar para darte información detallada.*"
  const WineriesText: string :=
    "🍇 *Bodegas recomendadas:*\n- Catena Zapata\n- Zuccardi\n- Trapiche\n- Norton\n- Séptima\n\n✏️ *Escribí el nombre de la bodega para darte más información.*"
  const ShoppingText: string :=
    "🛍 *Compras y paseos:*\n- Palmares Open Mall\n- Mendoza Plaza Shopping\n- Paseo Arístides\n- Calle Las Heras\n\n✏️ *Escribí el lugar para darte más información.*"
  const CultureText: string :=
    "🏛 *Cultura e historia:*\n- Museo del Área Fundacional\n- Ruinas de San Francisco\n- Teatro Independencia\n- Plaza Independencia\n\n✏️ *Escribí el lugar para darte más información.*"
  const MountainText: string :=
    "⛰ *Alta montaña:*\n- Potrerillos\n- Uspallata\n- Penitentes\n- Puente del Inca\n- Mirador del Aconcagua\n\n✏️ *Escribí el lugar para darte más información.*"
  const AdventureText: string :=
    "🎢 *Aventura en Mendoza:*\n- Rafting en Potrerillos\n- Trekking en Uspallata\n- Parapente en Cerro Arco\n- Cabalgatas en montaña\n\n✏️ *Escribí el lugar para darte más información.*"

  /** The static text a press on a category button sends. */
  function CategoryText(data: string): (r: Option<string>)
    ensures r.Some? <==> data in CategoryPayloads
  {
    if data == "lug_naturaleza" then
      Some(NatureText)
    else if data == "lug_bodegas" then
      Some(WineriesText)
    else if data == "lug_compras" then
      Some(ShoppingText)
    else if data == "lug_cultura" then
      Some(CultureText)
    else if data == "lug_montana" then
      Some(MountainText)
    else if data == "lug_aventura" then
      Some(AdventureText)
    else None
  }

  /** The payloads `manejar_botones` answers to. */
  const KnownPayloads: seq<string> :=
    ["lugares"] + CategoryPayloads + ["clima", "pronostico", "ayuda", "menu_principal"]

  /** `manejar_botones`: the messages sent for a button press carrying
      `data`. `expired` stands for `query.answer()` raising `BadRequest`. */
  function PressButton(svc: Services, data: string, expired: bool): seq<Message> {
    if expired then
      [Message(ExpiredText, None, false), MainMenuMessage()]
    else if data == "lugares" then
      [Message(ChooseCategoryText, Some(PlacesMenu()), false)]
    else if CategoryText(data).Some? then
      [Message(CategoryText(data).value, None, true)]
    else if data == "clima" then
      [Message(svc.clima, None, false), QuickMenuFromQueryMessage()]
    else if data == "pronostico" then
      [Message(svc.pronostico, None, false), QuickMenuFromQueryMessage()]
    else if data == "ayuda" then
      [Message(HelpText, None, false), QuickMenuFromQueryMessage()]
    else if data == "menu_principal" then
      [MainMenuMessage()]
    else
      [Message(NotRecognizedText, None, false)]
  }

  /** `manejar_botones_fake(data, message)`: only `lugares` is answered, with
      the command's categories keyboard; anything else sends nothing. */
  function PressButtonFake(data: string): seq<Message> {
    if data == "lugares" then [Message(ChooseCategoryText, Some(PlacesCommandMenu()), false)]
    else []
  }
}

/** What the keyboards and the button handlers promise. */
module MenusFacts {
  import opened Optional
  import opened Menus

  /** A press on an expired button re-sends the main menu, whatever it carried. */
  lemma ExpiredButtonResendsMainMenu(svc: Services, data: string)
    ensures PressButton(svc, data, true) == [Message(ExpiredText, None, false), MainMenuMessage()]
    ensures PressButton(svc, data, true)[1].keyboard == Some(MainMenu())
  {
  }

  /** The "not recognised" reply, without a keyboard, is sent exactly for the
      payloads outside the known ones. */
  lemma UnknownPayloadIff(svc: Services, data: string)
    ensures PressButton(svc, data, false) == [Message(NotRecognizedText, None, false)]
      <==> data !in KnownPayloads
  {
    if data in CategoryPayloads {
      assert CategoryText(data).value != NotRecognizedText;
    }
  }

  /** Every button the bot ever shows carries a payload that `manejar_botones`
      knows: no keyboard leads to "Opción no reconocida". */
  lemma EveryShownButtonIsKnown(p: string)
    requires p in Payloads(MainMenu()) || p in Payloads(PlacesMenu())
          || p in Payloads(PlacesCommandMenu()) || p in Payloads(QuickMenu())
    ensures p in KnownPayloads
  {
  }

  /** A category press sends its static text, in Markdown, with no keyboard. */
  lemma CategoryPressSendsText(svc: Services, data: string)
    requires data in CategoryPayloads
    ensures var r := PressButton(svc, data, false);
      |r| == 1 && r[0].keyboard == None && r[0].markdown
      && CategoryText(data) == Some(r[0].text)
  {
  }

  /** `lugares` answers with seven buttons: the six categories and the way
      back to the main menu. */
  lemma PlacesPressShowsCategories(svc: Services)
    ensures var r := PressButton(svc, "lugares", false);
      |r| == 1 && r[0].keyboard.Some?
      && ButtonCount(r[0].keyboard.value) == 7
      && Payloads(r[0].keyboard.value) == CategoryPayloads + ["menu_principal"]
  {
  }

  /** Weather, forecast and help presses answer and then offer the quick menu,
      whose only button goes back to the main menu. */
  lemma AnswerThenQuickMenu(svc: Services, data: string)
    requires data in ["clima", "pronostico", "ayuda"]
    ensures var r := PressButton(svc, data, false);
      |r| == 2 && r[1] == QuickMenuFromQueryMessage()
      && r[0].keyboard == None
      && r[0].text == (if data == "clima" then svc.clima
                       else if data == "pronostico" then svc.pronostico
                       else HelpText)
      && Payloads(r[1].keyboard.value) == ["menu_principal"]
  {
  }

  /** The `/lugares` command sends the same categories as the button, less
      the row back to the main menu; any other payload sends nothing. */
  lemma FakePressMatchesButton(svc: Services, data: string)
    ensures data == "lugares" ==>
      var cmd := PressButtonFake(data)[0];
      var btn := PressButton(svc, data, false)[0];
      && |PressButtonFake(data)| == 1
      && cmd.text == btn.text
      && cmd.keyboard.value == btn.keyboard.value[..6]
    ensures data != "lugares" ==> PressButtonFake(data) == []
  {
  }
}
