/** The customer detail screen: the age gate on deletion, the outcome of a delete request,
    and which of its four views is shown. */
module UserDetail {
  import opened Wrappers
  import opened Dates
  import opened UserModel
  import UserForm

  /** The message both failed requests of this screen show. */
  const RequestErrorMessage := "Error al obtener los datos del usuario."

  /** Customers younger than this may not be deleted. */
  const MinDeletionAge := 80

  /** The screen's own calculateAge, written as the screen writes it. It is the form's rule. */
  function CalculateAge(birth: Date, today: Date): (age: int)
    ensures age == UserForm.CalculateAge(birth, today)
  {
    var age := today.year - birth.year;
    var monthDiff := today.month - birth.month;
    if monthDiff < 0 || (monthDiff == 0 && today.day < birth.day) then age - 1 else age
  }

  /** new Date(user?.birth_date): with no customer, or with text that is not a date, the
      result is an Invalid Date. */
  function BirthDateOf(user: Option<User>): (d: Option<Date>)
    ensures d.Some? ==> user.Some? && ParseIsoDate(user.value.birthDate) == d
    ensures user.Some? ==> d == ParseIsoDate(user.value.birthDate)
  {
    match user
    case None => None
    case Some(u) => ParseIsoDate(u.birthDate)
  }

  /** What handleDeleteUser decides before any request is made. */
  datatype Gate = InvalidBirthDate | TooYoung | Eligible

  /** Deletion is allowed exactly when the customer's 80th birthday has come; an invalid
      birth date stops the handler before the age is looked at. */
  function DeleteGate(birth: Option<Date>, today: Date): (g: Gate)
    ensures g == InvalidBirthDate <==> birth.None?
    ensures g == Eligible <==> birth.Some? && OnOrBefore(Anniversary(birth.value, MinDeletionAge), today)
    ensures g == TooYoung <==> birth.Some? && !OnOrBefore(Anniversary(birth.value, MinDeletionAge), today)
  {
    match birth
    case None => InvalidBirthDate
    case Some(b) =>
      UserForm.AgeCountsBirthdays(b, today, MinDeletionAge);
      if CalculateAge(b, today) >= MinDeletionAge then Eligible else TooYoung
  }

  /** At the boundary: 79 is refused, 80 proceeds. */
  lemma DeleteBoundary(birth: Date, today: Date)
    ensures CalculateAge(birth, today) == 79 ==> DeleteGate(Some(birth), today) == TooYoung
    ensures CalculateAge(birth, today) == 80 ==> DeleteGate(Some(birth), today) == Eligible
  {
  }

  /** A request the screen issues or a callback it invokes. */
  datatype Effect = GetRequest(id: int) | DeleteRequest(id: int) | Refresh | GoBack

  function DeleteRequests(e: seq<Effect>): (n: nat)
    ensures n <= |e|
  {
    if e == [] then 0
    else (if e[0].DeleteRequest? then 1 else 0) + DeleteRequests(e[1..])
  }

  lemma {:induction false} DeleteRequestsAppend(a: seq<Effect>, b: seq<Effect>)
    ensures DeleteRequests(a + b) == DeleteRequests(a) + DeleteRequests(b)
  {
    if a != [] {
      assert (a + b)[1..] == a[1..] + b;
      DeleteRequestsAppend(a[1..], b);
    } else {
      assert a + b == b;
    }
  }

  /** The effects of one deleteUser call: one delete request; then, only when it succeeds,
      the refresh callback followed by going back. */
  function DeleteEffects(id: int, succeeded: bool): (e: seq<Effect>)
    ensures |e| >= 1 && e[0] == DeleteRequest(id) && DeleteRequests(e) == 1
    ensures Refresh in e <==> succeeded
    ensures GoBack in e <==> succeeded
    ensures succeeded ==> |e| == 3 && e[1] == Refresh && e[2] == GoBack
    ensures !succeeded ==> e == [DeleteRequest(id)]
  {
    var e := [DeleteRequest(id)] + (if succeeded then [Refresh, GoBack] else []);
    assert DeleteRequests(e) == 1 by {
      DeleteRequestsAppend([DeleteRequest(id)], e[1..]);
      assert e == [DeleteRequest(id)] + e[1..];
    }
    e
  }

  /** How the get request of fetchUser ends: it throws, or it resolves with a body that is
      a customer or, for an empty or null response, nothing (None stands for any falsy
      body). */
  datatype GetOutcome = Failed | Resolved(body: Option<User>)

  /** What the screen shows. */
  datatype View = Loading | ErrorView(message: string) | NotFound | DetailView(user: User)

  /** The render precedence: loading, then a (non-empty) error, then no customer, then the
      customer's details. */
  function Render(isLoading: bool, error: Option<string>, user: Option<User>): (v: View)
    ensures v.Loading? <==> isLoading
    ensures v.ErrorView? <==> !isLoading && error.Some? && error.value != ""
    ensures v.NotFound? <==> !isLoading && !(error.Some? && error.value != "") && user.None?
    ensures v.ErrorView? ==> error == Some(v.message)
    ensures v.DetailView? ==> user == Some(v.user)
  {
    if isLoading then Loading
    else if error.Some? && error.value != "" then ErrorView(error.value)
    else if user.None? then NotFound
    else DetailView(user.value)
  }

  class DetailScreen {
    const userId: int
    var user: Option<User>
    var isLoading: bool
    var error: Option<string>
    var shouldNotDelete: bool
    /** The requests issued and callbacks invoked so far, in order. */
    var effects: seq<Effect>

    function CurrentView(): View
      reads this
    {
      Render(isLoading, error, user)
    }

    constructor (userId: int)
      ensures this.userId == userId
      ensures user.None? && isLoading && error.None? && !shouldNotDelete && effects == []
      ensures CurrentView() == Loading
    {
      this.userId := userId;
      user := None;
      isLoading := true;
      error := None;
      shouldNotDelete := false;
      effects := [];
    }

    /** fetchUser, with the outcome of the get request as a parameter. Whatever a request
        that resolves returns is stored, a falsy body too; only a failure sets the error. */
    method FetchUser(response: GetOutcome)
      modifies this
      ensures effects == old(effects) + [GetRequest(userId)]
      ensures user == (if response.Resolved? then response.body else old(user))
      ensures error == (if response.Failed? then Some(RequestErrorMessage) else old(error))
      ensures !isLoading && shouldNotDelete == old(shouldNotDelete)
      ensures response.Failed? ==> CurrentView() == ErrorView(RequestErrorMessage)
      ensures response == Resolved(None) && old(error).None? ==> CurrentView() == NotFound
      ensures response.Resolved? && response.body.Some? && old(error).None?
              ==> CurrentView() == DetailView(response.body.value)
    {
      isLoading := true;
      effects := effects + [GetRequest(userId)];
      if response.Resolved? {
        user := response.body;
      } else {
        error := Some(RequestErrorMessage);
      }
      isLoading := false;
    }

    /** deleteUser, with the outcome of the delete request as a parameter. Loading ends
        whatever the outcome; refresh and go-back follow only a success; the error is set
        only on failure. */
    method DeleteUser(succeeded: bool)
      modifies this
      ensures effects == old(effects) + DeleteEffects(userId, succeeded)
      ensures !isLoading
      ensures error == (if succeeded then old(error) else Some(RequestErrorMessage))
      ensures user == old(user) && shouldNotDelete == old(shouldNotDelete)
      ensures CurrentView() != Loading
      ensures !succeeded ==> CurrentView() == ErrorView(RequestErrorMessage)
    {
      isLoading := true;
      effects := effects + [DeleteRequest(userId)];
      if succeeded {
        effects := effects + [Refresh];
        effects := effects + [GoBack];
      } else {
        error := Some(RequestErrorMessage);
      }
      isLoading := false;
      assert effects == old(effects) + DeleteEffects(userId, succeeded);
    }

    /** handleDeleteUser: an invalid birth date changes nothing; under 80 no request is made
        and the refusal flag is raised; from 80 on exactly one delete request is made and the
        flag is cleared. */
    method HandleDeleteUser(today: Date, deleteSucceeds: bool)
      modifies this
      ensures user == old(user)
      ensures var g := DeleteGate(BirthDateOf(user), today);
        && (g == InvalidBirthDate ==>
              shouldNotDelete == old(shouldNotDelete) && effects == old(effects)
              && isLoading == old(isLoading) && error == old(error))
        && (g == TooYoung ==>
              shouldNotDelete && effects == old(effects)
              && isLoading == old(isLoading) && error == old(error))
        && (g == Eligible ==>
              !shouldNotDelete && effects == old(effects) + DeleteEffects(userId, deleteSucceeds)
              && !isLoading && error == (if deleteSucceeds then old(error) else Some(RequestErrorMessage)))
      ensures DeleteRequests(effects)
           == DeleteRequests(old(effects)) + (if DeleteGate(BirthDateOf(user), today) == Eligible then 1 else 0)
    {
      var birthDate := BirthDateOf(user);
      if birthDate.None? {
        return;
      }
      var age := CalculateAge(birthDate.value, today);
      if age >= MinDeletionAge {
        DeleteUser(deleteSucceeds);
        shouldNotDelete := false;
        DeleteRequestsAppend(old(effects), DeleteEffects(userId, deleteSucceeds));
      } else {
        shouldNotDelete := true;
      }
    }
  }

}
