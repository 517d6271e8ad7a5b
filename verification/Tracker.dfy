/** The display and the HTTPS client together: what one refused encryption does to the tracker. */
module Tracker {
  import H = HttpsClient
  import N = Nixie
  import SR = ShiftRegister

  /** The application waits for the response to its request. */
  ghost predicate Waiting(app: N.AppNixieData)
    reads app, app.shiftRegister, app.shiftRegister.data
  {
    && app.Valid() && app.Wired() && app.FetchTarget() && app.shiftRegister.Valid()
    && app.state == N.WaitHttpsResponse
  }

  /** One turn of the main loop without callbacks: the client first, the application after it. */
  method Turn(app: N.AppNixieData, client: H.AppHTTPSClientData, a: H.Answers, env: N.Environment)
    requires Waiting(app) && H.Called(client.Snapshot(), a) == []
    modifies client, app, app.displayValue, app.displayValueOut, app.isFetchedOut, app.cathodes, app.registerShiftState
    modifies app.shiftRegister, app.shiftRegister.data
    ensures Waiting(app) && client.Snapshot() == H.Next(old(client.Snapshot()), a)
    ensures app.displayValueOut == old(app.displayValueOut) && app.isFetchedOut == old(app.isFetchedOut)
  {
    var calls := client.Tasks(a);
    app.Tasks(env);
  }

  /**
   * The poll in which encryption is refused is the last one that matters: however often the two are polled after
   * it, and whatever the network answers, nothing is reported, the application waits, and it takes no fetch.
   */
  method WaitsForEver(app: N.AppNixieData, client: H.AppHTTPSClientData, refusal: H.Answers, env: N.Environment,
                      turns: seq<(H.Answers, N.Environment)>, isFetched: N.Flag, value: array<char>)
    returns (fetched: bool)
    requires Waiting(app) && H.EncryptionRefused(client.Snapshot(), refusal)
    requires value.Length == app.displayValue.Length && app.Foreign(value)
    modifies client, app, app.displayValue, app.displayValueOut, app.isFetchedOut, app.cathodes, app.registerShiftState
    modifies app.shiftRegister, app.shiftRegister.data, isFetched
    ensures !fetched && Waiting(app) && (turns != [] ==> client.state == H.Idle)
  {
    Turn(app, client, refusal, env);
    var i := 0;
    while i < |turns|
      invariant 0 <= i <= |turns|
      invariant Waiting(app) && client.state == if i == 0 then H.CloseConnection else H.Idle
      invariant app.displayValueOut == old(app.displayValueOut) && app.isFetchedOut == old(app.isFetchedOut)
    {
      Turn(app, client, turns[i].0, turns[i].1);
      i := i + 1;
    }
    fetched := app.Fetch(isFetched, value);
  }

  /** The state of the client after so many polls of a request, up to its connection. */
  function Connecting(polls: nat): H.State
  {
    match polls
    case 0 => H.BeginSequence
    case 1 => H.WaitForNetwork
    case 2 => H.ParseRequestUrl
    case 3 => H.ProcessRequest
    case 4 => H.StartConnection
    case _ => H.WaitForConnection
  }

  lemma ConnectingStep(c: H.Client, polls: nat)
    requires polls < 5 && c.state == Connecting(polls)
    ensures H.Next(c, H.REFUSING).state == Connecting(polls + 1) && H.Next(c, H.REFUSING).url == c.url
    ensures H.Called(c, H.REFUSING) == []
  {
  }

  /** The application finds the client idle and hands its request over. */
  method Submit(app: N.AppNixieData, client: H.AppHTTPSClientData, url: string, callbacks: H.Callbacks,
                env: N.Environment)
    requires app.Valid() && app.Wired() && app.FetchTarget() && app.shiftRegister.Valid()
    requires app.state == N.WaitHttpsClient && client.state == H.Idle
    modifies client, app, app.displayValue, app.displayValueOut, app.isFetchedOut, app.cathodes, app.registerShiftState
    modifies app.shiftRegister, app.shiftRegister.data
    ensures Waiting(app) && client.state == H.BeginSequence && client.requestUrl == H.Stored(url)
    ensures app.displayValueOut == old(app.displayValueOut) && app.isFetchedOut == old(app.isFetchedOut)
  {
    var busy := client.IsBusy();
    var accepted := client.Request(url, callbacks);
    assert client.Snapshot().state == H.BeginSequence && client.Snapshot().url == H.Stored(url);
    app.Tasks(env.(busy := busy, accepted := accepted));
  }

  /** Any request for a secure URL can end this way, as the network may refuse to encrypt its connection. */
  method RefusedRequest(app: N.AppNixieData, client: H.AppHTTPSClientData, url: string, callbacks: H.Callbacks,
                        env: N.Environment)
    requires app.Valid() && app.Wired() && app.FetchTarget() && app.shiftRegister.Valid()
    requires app.state == N.WaitHttpsClient && client.state == H.Idle && H.SECURE_SCHEME <= url
    modifies client, app, app.displayValue, app.displayValueOut, app.isFetchedOut, app.cathodes, app.registerShiftState
    modifies app.shiftRegister, app.shiftRegister.data
    ensures Waiting(app) && H.EncryptionRefused(client.Snapshot(), H.REFUSING)
  {
    Submit(app, client, url, callbacks, env);
    var i := 0;
    while i < 5
      invariant 0 <= i <= 5
      invariant Waiting(app) && client.Snapshot().url == H.Stored(url) && client.Snapshot().state == Connecting(i)
      invariant app.displayValueOut == old(app.displayValueOut) && app.isFetchedOut == old(app.isFetchedOut)
    {
      ConnectingStep(client.Snapshot(), i);
      Turn(app, client, H.REFUSING, env);
      i := i + 1;
    }
  }
}
