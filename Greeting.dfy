/** The time-of-day greetings of the chat page, as functions of the hour the
    browser's clock reports. */
module Greeting {

  const MorningTitle: string := "🌅 早安！"
  const AfternoonTitle: string := "🌞 午安！"
  const EveningTitle: string := "🌙 晚安！"

  /** The only non-empty greeting the patient's opening line carries. */
  const NightGreeting: string := "您好"

  /** `getGreetingH1()`: morning from 6 to 11, afternoon from 12 to 17,
      evening at every other hour. */
  function GreetingH1(hour: int): (g: string)
    ensures g == MorningTitle <==> 6 <= hour < 12
    ensures g == AfternoonTitle <==> 12 <= hour < 18
    ensures g == EveningTitle <==> hour < 6 || 18 <= hour
  {
    if 6 <= hour < 12 then MorningTitle
    else if 12 <= hour < 18 then AfternoonTitle
    else EveningTitle
  }

  /** `getBotGreetingText()`: five daytime bands all give the empty string;
      only the night, before 6 or from 22 on, gives a greeting. */
  function BotGreetingText(hour: int): (g: string)
    ensures g == NightGreeting <==> hour < 6 || 22 <= hour
    ensures g != NightGreeting ==> g == ""
  {
    if 6 <= hour < 9 then ""
    else if 9 <= hour < 12 then ""
    else if 12 <= hour < 14 then ""
    else if 14 <= hour < 18 then ""
    else if 18 <= hour < 22 then ""
    else NightGreeting
  }
}
