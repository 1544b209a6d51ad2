/** The profile page: when it fetches, which of its four screens it shows, and
    how the profile card fills in missing fields and builds the social links. */
module ProfilePage {
  import opened Common
  import opened WalletContext

  /** The page's own state. */
  datatype Page = Page(profile: Option<Profile>, loadingProfile: bool)

  const InitialPage: Page := Page(None, false)

  /** `fetchProfile` given what `getProfile` answers: without an address no call is
      made; otherwise the answer (possibly null) becomes the profile and loading ends. */
  function FetchProfile(p: Page, address: Option<string>, answer: Option<Profile>): (r: Page)
    ensures !Truthy(address) ==> r == p
    ensures Truthy(address) ==> r.profile == answer && !r.loadingProfile
  {
    if !Truthy(address) then p else Page(answer, false)
  }

  const DefaultImage: string := "https://w0.peakpx.com/wallpaper/979/89/HD-wallpaper-purple-smile-design-eye-smily-profile-pic-face.jpg"
  const DefaultName: string := "Unnamed User"
  const DefaultMail: string := "No email provided"
  const DefaultAbout: string := "This user hasn't added anything yet."
  const TwitterBase: string := "https://twitter.com/"
  const GithubBase: string := "https://github.com/"

  /** `v || fallback`. */
  function OrDefault(v: Option<string>, fallback: string): (r: string)
    ensures Truthy(v) ==> r == v.value
    ensures !Truthy(v) ==> r == fallback
  {
    if Truthy(v) then v.value else fallback
  }

  /** A link rendered only for a non-empty handle, pointing at `base + handle`. */
  function SocialLink(base: string, handle: Option<string>): (r: Option<string>)
    ensures r.Some? <==> Truthy(handle)
    ensures r.Some? ==> |r.value| > |base| && r.value[..|base|] == base && r.value[|base|..] == handle.value
  {
    if Truthy(handle) then Some(base + handle.value) else None
  }

  /** What the profile card shows. */
  datatype Display = Display(image: string, name: string, address: string, mail: string, about: string,
                             twitterLink: Option<string>, githubLink: Option<string>)

  datatype Screen = Loader | ConnectPrompt | NotFound | ProfileCard(display: Display)

  /** The render branches in order: a loader while the context or the page loads,
      then the connect prompt without an address, then "Profile not found" without
      a profile, else the card with its fallbacks. */
  function Render(isLoading: bool, p: Page, address: Option<string>): (r: Screen)
    ensures (isLoading || p.loadingProfile) <==> r.Loader?
    ensures r.ConnectPrompt? <==> !isLoading && !p.loadingProfile && !Truthy(address)
    ensures r.NotFound? <==> !isLoading && !p.loadingProfile && Truthy(address) && p.profile.None?
    ensures r.ProfileCard? ==>
              var q := p.profile.value;
              && r.display.name == OrDefault(q.name, DefaultName)
              && r.display.image == OrDefault(q.image, DefaultImage)
              && r.display.mail == OrDefault(q.mail, DefaultMail)
              && r.display.about == OrDefault(q.about, DefaultAbout)
              && r.display.address == address.value
              && r.display.twitterLink == SocialLink(TwitterBase, q.twitter)
              && r.display.githubLink == SocialLink(GithubBase, q.github)
  {
    if isLoading || p.loadingProfile then Loader
    else if !Truthy(address) then ConnectPrompt
    else match p.profile
      case None => NotFound
      case Some(q) =>
        ProfileCard(Display(OrDefault(q.image, DefaultImage), OrDefault(q.name, DefaultName), address.value,
                            OrDefault(q.mail, DefaultMail), OrDefault(q.about, DefaultAbout),
                            SocialLink(TwitterBase, q.twitter), SocialLink(GithubBase, q.github)))
  }

  /** A profile read that fails in any way (no contract, the read throws) ends on
      "Profile not found" for a connected user. */
  lemma FailedReadShowsNotFound(s: Session, read: ProfileRead)
    requires Truthy(s.address)
    requires s.contracts.None? || !s.contracts.value.userProfile || read.ReadThrew?
    ensures Render(false, FetchProfile(InitialPage, s.address, GetProfile(s, read)), s.address) == NotFound
  {
  }

  /** A full six-field tuple is shown in read order: position 0 as the name,
      1 as the image, 2 as the about text, 3 as the mail, and 4 and 5 as the
      Twitter and GitHub handles. */
  lemma TupleShownInReadOrder(s: Session, fields: seq<string>)
    requires Truthy(s.address) && s.contracts.Some? && s.contracts.value.userProfile
    requires |fields| == 6 && forall i :: 0 <= i < 6 ==> fields[i] != ""
    ensures var r := Render(false, FetchProfile(InitialPage, s.address, GetProfile(s, ReadTuple(fields))), s.address);
            && r.ProfileCard?
            && r.display.name == fields[0] && r.display.image == fields[1] && r.display.about == fields[2]
            && r.display.mail == fields[3]
            && r.display.twitterLink == Some(TwitterBase + fields[4])
            && r.display.githubLink == Some(GithubBase + fields[5])
  {
  }
}
