/** The navigation bar's wallet button: the abbreviated address, and the
    disconnect confirmation popup. */
module Navbar {
  import opened Common
  import opened WalletContext

  /** The bar's view of the context and its own popup flag. */
  datatype Nav = Nav(session: Session, showConfirm: bool)

  /** `${address.slice(0, 6)}...${address.slice(-4)}`. */
  function Abbreviate(address: string): (r: string)
    ensures |address| >= 10 ==> r == address[..6] + "..." + address[|address| - 4..]
    ensures 4 <= |address| < 10 ==> r == address[..if |address| < 6 then |address| else 6] + "..." + address[|address| - 4..]
    ensures |address| < 4 ==> r == address + "..." + address
    ensures |r| == (if |address| < 6 then |address| else 6) + 3 + (if |address| < 4 then |address| else 4)
  {
    Slice(address, 0, 6) + "..." + SliceFrom(address, -4)
  }

  /** A 42-character Ethereum address shortens to 13 characters that start with its
      first six and end with its last four. */
  lemma AbbreviatedEthereumAddress(address: string)
    requires |address| == 42
    ensures |Abbreviate(address)| == 13
    ensures Abbreviate(address)[..6] == address[..6]
    ensures Abbreviate(address)[9..] == address[38..]
  {
  }

  /** `handleDisconnect`: only opens the popup. */
  function HandleDisconnect(n: Nav): (r: Nav)
    ensures r.session == n.session && r.showConfirm
  {
    n.(showConfirm := true)
  }

  /** `confirmDisconnect`: disconnects and closes the popup. */
  function ConfirmDisconnect(n: Nav): (r: Nav)
    ensures r.session == DisconnectWallet(n.session) && !r.showConfirm
  {
    Nav(DisconnectWallet(n.session), false)
  }

  /** `cancelDisconnect`: closes the popup and keeps the session. */
  function CancelDisconnect(n: Nav): (r: Nav)
    ensures r.session == n.session && !r.showConfirm
  {
    n.(showConfirm := false)
  }

  datatype Bar = ConnectButton | AddressButton(caption: string, confirmPopup: bool)

  /** With an address the bar shows its abbreviation, and the popup when it is open;
      without one only "Connect Wallet". */
  function Render(n: Nav): (r: Bar)
    ensures r.ConnectButton? <==> !Truthy(n.session.address)
    ensures r.AddressButton? ==> r.caption == Abbreviate(n.session.address.value)
    ensures r.AddressButton? ==> (r.confirmPopup <==> n.showConfirm)
  {
    if Truthy(n.session.address) then AddressButton(Abbreviate(n.session.address.value), n.showConfirm)
    else ConnectButton
  }

  /** Opening then confirming ends on the connect button with the session
      disconnected; opening then cancelling returns to the closed bar. */
  lemma PopupRoundTrips(n: Nav)
    requires Truthy(n.session.address)
    ensures Render(ConfirmDisconnect(HandleDisconnect(n))) == ConnectButton
    ensures ConfirmDisconnect(HandleDisconnect(n)).session.address.None?
    ensures CancelDisconnect(HandleDisconnect(n)) == n.(showConfirm := false)
    ensures Render(HandleDisconnect(n)).confirmPopup
    ensures !Render(CancelDisconnect(HandleDisconnect(n))).confirmPopup
  {
  }
}
