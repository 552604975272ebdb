/** Turning the classifier's output into what the page shows: the condition
    name (`condition_map.get(pred, "Unknown")`) and the card style chosen from it. */
module Labels {

  /** The three conditions the classifier was trained on, by label index. */
  const ConditionMap: map<int, string> := map[0 := "Depression", 1 := "Diabetes Type 2", 2 := "High Blood Pressure"]

  /** The name shown for an index the map does not hold. */
  const Fallback: string := "Unknown"

  /** `condition_map.get(pred, "Unknown")`. */
  function LabelFor(pred: int): (name: string)
    ensures pred == 0 ==> name == "Depression"
    ensures pred == 1 ==> name == "Diabetes Type 2"
    ensures pred == 2 ==> name == "High Blood Pressure"
    ensures name == Fallback <==> !(0 <= pred <= 2)
  {
    if pred in ConditionMap then ConditionMap[pred] else Fallback
  }

  /** Distinct known indices give distinct names, and no known index is shown as
      the fallback, so the shown name identifies the classifier's answer. */
  lemma LabelForInjective(p: int, q: int)
    requires p in ConditionMap && q in ConditionMap
    requires LabelFor(p) == LabelFor(q)
    ensures p == q
  {
  }

  /** The result card's background colour, icon and font colour. */
  datatype Style = Style(background: string, emoji: string, fontColor: string)

  const Purple: Style := Style("#f3e5f5", "\U{1F4AD}", "#6A1B9A")
  const Blue: Style := Style("#e1f5fe", "\U{1F36C}", "#0277BD")
  const Red: Style := Style("#ffebee", "\U{2764}\U{FE0F}", "#C62828")

  /** The if/elif/else of lines 96 to 107: purple for depression, blue for type 2
      diabetes, and red for every other name, the fallback included. */
  function StyleFor(name: string): (st: Style)
    ensures st == Purple <==> name == "Depression"
    ensures st == Blue <==> name == "Diabetes Type 2"
    ensures st == Red <==> name != "Depression" && name != "Diabetes Type 2"
  {
    if name == "Depression" then Purple
    else if name == "Diabetes Type 2" then Blue
    else Red
  }

  /** Label index to card: index 0 is purple, 1 is blue, and 2 shares the red card
      with every unknown index. */
  lemma StyleForIndex(pred: int)
    ensures StyleFor(LabelFor(pred)) == Purple <==> pred == 0
    ensures StyleFor(LabelFor(pred)) == Blue <==> pred == 1
    ensures StyleFor(LabelFor(pred)) == Red <==> pred != 0 && pred != 1
  {
    if pred == 2 {
      assert LabelFor(pred)[0] == 'H';
    } else if pred != 0 && pred != 1 {
      assert LabelFor(pred)[0] == 'U';
    }
  }
}
